/** The code block's copy button: the text it copies, read out of the
    highlighted node tree, and the `copied` flag that a successful copy
    sets and a later timer clears. The clipboard write's outcome and the
    firing of the timer are inputs. */
module CodeBlock {
  import opened Strings
  import opened Seqs

  /** A React node: the JavaScript values a child can be. Numbers are
      integers here. An element carries its `props.children`, which is
      `Undefined` when absent; `Other` is an object without `props`. */
  datatype Node =
    | Null
    | Undefined
    | Bool(b: bool)
    | Str(s: string)
    | Num(n: int)
    | Arr(items: seq<Node>)
    | Element(children: Node)
    | Other

  /** `!node` holds. */
  predicate Falsy(n: Node) {
    n.Null? || n.Undefined? || n == Bool(false) || n == Str("") || n == Num(0)
  }

  /** extractText: the text of strings and numbers, concatenated in order
      through arrays and elements. */
  function ExtractText(n: Node): (r: string)
    ensures Falsy(n) ==> r == ""
    ensures n.Str? ==> r == n.s
    ensures n.Num? && n.n != 0 ==> r == IntToString(n.n)
    ensures n.Bool? || n.Other? ==> r == ""
  {
    match n
    case Null => ""
    case Undefined => ""
    case Bool(_) => ""
    case Str(s) => s
    case Num(k) => if k == 0 then "" else IntToString(k)
    case Arr(items) => Join(seq(|items|, i requires 0 <= i < |items| => ExtractText(items[i])), "")
    case Element(c) => ExtractText(c)
    case Other => ""
  }

  lemma {:induction false} JoinNoSeparator(xs: seq<string>)
    ensures Join(xs, "") == Flatten(xs)
  {
    if |xs| > 1 {
      JoinNoSeparator(xs[1..]);
    } else if |xs| == 1 {
      assert Flatten(xs) == xs[0] + Flatten(xs[1..]);
    }
  }

  function Texts(items: seq<Node>): (r: seq<string>)
    ensures |r| == |items|
    ensures forall i :: 0 <= i < |items| ==> r[i] == ExtractText(items[i])
  {
    seq(|items|, i requires 0 <= i < |items| => ExtractText(items[i]))
  }

  lemma ArrText(items: seq<Node>)
    ensures ExtractText(Arr(items)) == Flatten(Texts(items))
  {
    JoinNoSeparator(Texts(items));
  }

  /** The text of an array is the text of its first part followed by the
      text of the rest: children are read in order, nothing is added
      between them. */
  lemma ExtractTextConcat(a: seq<Node>, b: seq<Node>)
    ensures ExtractText(Arr(a + b)) == ExtractText(Arr(a)) + ExtractText(Arr(b))
  {
    ArrText(a + b);
    ArrText(a);
    ArrText(b);
    assert Texts(a + b) == Texts(a) + Texts(b);
    FlattenConcat(Texts(a), Texts(b));
  }

  /** Code split by the highlighter into spans, one per piece. */
  function Highlighted(pieces: seq<string>): Node {
    Element(Arr(seq(|pieces|, i requires 0 <= i < |pieces| => Element(Str(pieces[i])))))
  }

  /** `String(value)`, with an array's elements joined by "," and null or
      undefined elements written as "". */
  function JsString(n: Node): string {
    match n
    case Null => "null"
    case Undefined => "undefined"
    case Bool(b) => if b then "true" else "false"
    case Str(s) => s
    case Num(k) => IntToString(k)
    case Arr(items) =>
      Join(seq(|items|, i requires 0 <= i < |items| =>
        if items[i].Null? || items[i].Undefined? then "" else JsString(items[i])), ",")
    case Element(_) => "[object Object]"
    case Other => "[object Object]"
  }

  /** getCodeContent: nothing for no children; the text of a code
      element's children when it has some; otherwise the children as a
      string. */
  function GetCodeContent(children: Node): string {
    if Falsy(children) then ""
    else if children.Element? && !Falsy(children.children) then ExtractText(children.children)
    else JsString(children)
  }

  /** Copying a highlighted block gives back exactly the code that was
      highlighted. */
  lemma {:induction false} CopiesHighlightedCode(pieces: seq<string>)
    ensures GetCodeContent(Highlighted(pieces)) == Flatten(pieces)
  {
    var spans := seq(|pieces|, i requires 0 <= i < |pieces| => Element(Str(pieces[i])));
    ArrText(spans);
    assert Texts(spans) == pieces;
  }

  /** A lone string or number child is copied as its text, as extractText
      would give it. */
  lemma PrimitiveChildCopied(children: Node)
    requires children.Str? || children.Num?
    ensures GetCodeContent(children) == ExtractText(children)
  {
  }

  /** A code element with no children is copied as "[object Object]". */
  lemma EmptyElementCopiedAsObject(children: Node)
    requires children.Element? && Falsy(children.children)
    ensures GetCodeContent(children) == "[object Object]"
  {
  }

  /** Several bare strings as children are copied with a "," between
      them, unlike the text extractText reads from the same nodes. */
  lemma BareStringsCopiedWithCommas(a: string, b: string)
    requires a != "" || b != ""
    ensures GetCodeContent(Arr([Str(a), Str(b)])) == a + "," + b
    ensures ExtractText(Arr([Str(a), Str(b)])) == a + b
  {
    var items := [Str(a), Str(b)];
    var strs := seq(|items|, i requires 0 <= i < |items| =>
      if items[i].Null? || items[i].Undefined? then "" else JsString(items[i]));
    assert strs == [a, b];
    assert JsString(Arr(items)) == Join(strs, ",");
    JoinPair(a, b, ",");
    ArrText(items);
    assert Texts(items) == [a, b];
    assert Flatten([a, b]) == a + Flatten([b]);
  }

  lemma JoinPair(a: string, b: string, sep: string)
    ensures Join([a, b], sep) == a + sep + b
  {
    assert [a, b][1..] == [b];
  }

  /** What the button shows. */
  datatype ButtonView = ButtonView(ariaLabel: string, title: string, checkIcon: bool)

  function View(copied: bool): (v: ButtonView)
    ensures v.ariaLabel == "Code copied!" <==> copied
    ensures v.title == "Copied!" <==> copied
    ensures v.checkIcon <==> copied
  {
    if copied then ButtonView("Code copied!", "Copied!", true)
    else ButtonView("Copy code to clipboard", "Copy code", false)
  }

  /** The button's `copied` state together with the resets its copies have
      scheduled (each 2000 ms after its copy) and that have not fired yet.
      No reset is ever cancelled. */
  class CopyButton {
    var copied: bool
    var pendingResets: nat

    /** The flag is only ever set with a reset still to come. */
    predicate Valid()
      reads this
    {
      copied ==> pendingResets > 0
    }

    constructor ()
      ensures Valid()
      ensures !copied && pendingResets == 0
    {
      copied := false;
      pendingResets := 0;
    }

    /** copyToClipboard, given whether the clipboard write succeeded: a
        success sets the flag and schedules one more reset; a failure only
        logs. */
    method Copy(writeSucceeded: bool)
      requires Valid()
      modifies this
      ensures Valid()
      ensures writeSucceeded ==> copied && pendingResets == old(pendingResets) + 1
      ensures !writeSucceeded ==> copied == old(copied) && pendingResets == old(pendingResets)
    {
      if writeSucceeded {
        copied := true;
        pendingResets := pendingResets + 1;
      }
    }

    /** The oldest scheduled reset fires and clears the flag, whatever
        copies happened since it was scheduled. */
    method ResetFires()
      requires Valid() && pendingResets > 0
      modifies this
      ensures Valid()
      ensures !copied && pendingResets == old(pendingResets) - 1
    {
      copied := false;
      pendingResets := pendingResets - 1;
    }
  }

  /** Two successful copies in a row: when the first copy's reset fires,
      the button already reads "Copy code" although the second copy's reset
      is still to come. */
  method OverlappingCopies() returns (labelAfterFirstReset: string, stillPending: nat)
    ensures labelAfterFirstReset == "Copy code"
    ensures stillPending == 1
  {
    var button := new CopyButton();
    button.Copy(true);
    button.Copy(true);
    button.ResetFires();
    labelAfterFirstReset := View(button.copied).title;
    stillPending := button.pendingResets;
  }
}
