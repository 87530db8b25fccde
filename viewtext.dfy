/** `viewToPlainText` (src/renderer/index.ts): the plain text an editing-view
    tree stands for, as the plugin reads it out of the chat editor before
    encrypting it. */
module ViewText {
  import opened Wrappers
  import opened Strings

  /** A node of the editing view. Text nodes and text proxies carry their data;
      an element has a name, is or is not a container element, may carry an
      `alt` attribute and has children; a document fragment only has children. */
  datatype ViewNode =
    | Text(data: string)
    | TextProxy(data: string)
    | Element(name: string, container: bool, alt: Option<string>, children: seq<ViewNode>)
    | Fragment(children: seq<ViewNode>)

  /** `node.is('containerElement')`. */
  predicate IsContainer(v: ViewNode)
  {
    v.Element? && v.container
  }

  /** `node.name === 'br'`. */
  predicate IsBr(v: ViewNode)
  {
    v.Element? && v.name == "br"
  }

  /** `is('img') && hasAttribute('alt')`. */
  predicate IsImageWithAlt(v: ViewNode)
  {
    v.Element? && v.name == "img" && v.alt.Some?
  }

  /** A node whose text comes from its children. */
  predicate HasChildText(v: ViewNode)
  {
    (v.Element? && !IsImageWithAlt(v)) || v.Fragment?
  }

  /** The line feed put before the child at position `i`: when it or the
      previous child is a container element. */
  function Separator(children: seq<ViewNode>, i: nat): string
    requires i < |children|
  {
    if i > 0 && (IsContainer(children[i - 1]) || IsContainer(children[i])) then "\n" else ""
  }

  /** The line feed put after a `br` child. */
  function BreakAfter(child: ViewNode): string
  {
    if IsBr(child) then "\n" else ""
  }

  /** The text of a view node. */
  function PlainText(v: ViewNode): string
    decreases v, 1
  {
    match v
    case Text(data) => data
    case TextProxy(data) => data
    case Element(name, _, alt, children) =>
      if name == "img" && alt.Some? then alt.value else ChildrenText(v, |children|)
    case Fragment(children) => ChildrenText(v, |children|)
  }

  /** The text contributed by the first `n` children of `v`. */
  function ChildrenText(v: ViewNode, n: nat): string
    requires (v.Element? || v.Fragment?) && n <= |v.children|
    decreases v, 0, n
  {
    if n == 0 then ""
    else
      ChildrenText(v, n - 1) + Separator(v.children, n - 1)
      + PlainText(v.children[n - 1]) + BreakAfter(v.children[n - 1])
  }

  /** `viewToPlainText`, with its loop over the children and its `prev`. */
  method ViewToPlainText(v: ViewNode) returns (text: string)
    ensures text == PlainText(v)
    decreases v
  {
    text := "";
    if v.Text? || v.TextProxy? {
      text := v.data;
    } else if IsImageWithAlt(v) {
      text := v.alt.value;
    } else {
      var children := v.children;
      var prev: Option<ViewNode> := None;
      for i := 0 to |children|
        invariant text == ChildrenText(v, i)
        invariant prev == if i == 0 then None else Some(children[i - 1])
      {
        var child := children[i];
        var childText := ViewToPlainText(child);
        assert ChildrenText(v, i + 1)
            == ChildrenText(v, i) + Separator(children, i) + PlainText(child) + BreakAfter(child);
        if prev.Some? && (IsContainer(prev.value) || IsContainer(child)) {
          text := text + "\n";
        }
        text := text + childText;
        if IsBr(child) {
          text := text + "\n";
        }
        prev := Some(child);
      }
    }
  }

  function ChildTexts(children: seq<ViewNode>, n: nat): (r: seq<string>)
    requires n <= |children|
    ensures |r| == n
    ensures forall i :: 0 <= i < n ==> r[i] == PlainText(children[i])
  {
    seq(n, i requires 0 <= i < n => PlainText(children[i]))
  }

  /** Children that are all container elements (paragraphs, say) give their
      texts one per line. */
  lemma {:induction false} ContainerChildrenLines(v: ViewNode, n: nat)
    requires HasChildText(v) && n <= |v.children|
    requires forall i :: 0 <= i < n ==> IsContainer(v.children[i]) && !IsBr(v.children[i])
    ensures ChildrenText(v, n) == Join(ChildTexts(v.children, n), "\n")
  {
    if n > 0 {
      var last := v.children[n - 1];
      ContainerChildrenLines(v, n - 1);
      assert BreakAfter(last) == "";
      assert Separator(v.children, n - 1) == if n == 1 then "" else "\n";
      assert ChildrenText(v, n) == ChildrenText(v, n - 1) + Separator(v.children, n - 1) + PlainText(last);
      assert ChildTexts(v.children, n) == ChildTexts(v.children, n - 1) + [PlainText(last)];
      JoinSnoc(ChildTexts(v.children, n - 1), PlainText(last), "\n");
      if n == 1 {
        assert ChildrenText(v, 0) == "";
      }
    }
  }

  /** Children that are neither container elements nor `br` (text, images,
      attribute elements) run together without any separator. */
  lemma {:induction false} InlineChildrenConcat(v: ViewNode, n: nat)
    requires HasChildText(v) && n <= |v.children|
    requires forall i :: 0 <= i < n ==> !IsContainer(v.children[i]) && !IsBr(v.children[i])
    ensures ChildrenText(v, n) == Concat(ChildTexts(v.children, n))
  {
    if n > 0 {
      var last := v.children[n - 1];
      InlineChildrenConcat(v, n - 1);
      assert Separator(v.children, n - 1) == "" && BreakAfter(last) == "";
      assert ChildrenText(v, n) == ChildrenText(v, n - 1) + PlainText(last);
      assert ChildTexts(v.children, n) == ChildTexts(v.children, n - 1) + [PlainText(last)];
      ConcatSnoc(ChildTexts(v.children, n - 1), PlainText(last));
    }
  }

  /** A paragraph holding `a`, a line break and `b` reads as two lines. */
  lemma LineBreakInParagraph(a: string, b: string)
    ensures PlainText(Element("p", true, None, [Text(a), Element("br", false, None, []), Text(b)]))
            == a + "\n" + b
  {
    var br := Element("br", false, None, []);
    var p := Element("p", true, None, [Text(a), br, Text(b)]);
    assert PlainText(br) == ChildrenText(br, 0) == "";
    assert ChildrenText(p, 1) == a;
    assert ChildrenText(p, 2) == a + "\n";
    assert ChildrenText(p, 3) == a + "\n" + b;
  }
}
