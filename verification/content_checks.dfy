/** The "is this comment empty?" checks the comment and reply forms run on
    the editor's Lexical JSON before posting. The two forms use different
    checks; both are modelled over arbitrary JSON, where reading a property
    of `null` or calling `trim`/`some` on a non-string/non-array throws. */
module ContentChecks {
  import opened Wrappers
  import opened JsText
  import opened Json

  /** Evaluating a check either throws a TypeError or yields a boolean. */
  datatype Eval = Throws | Val(b: bool)

  /** `Array.prototype.some` with a callback that may throw: the callbacks
      run left to right and the first `true` or the first throw ends it. */
  function SomeOf(rs: seq<Eval>): (r: Eval)
    ensures r == Val(false) <==> forall i :: 0 <= i < |rs| ==> rs[i] == Val(false)
  {
    if |rs| == 0 then Val(false)
    else match rs[0]
      case Throws => Throws
      case Val(true) => Val(true)
      case Val(false) =>
        var r := SomeOf(rs[1..]);
        assert forall i :: 1 <= i < |rs| ==> rs[i] == rs[1..][i - 1];
        r
  }

  /** What `some` answers is decided by the first callback that does not
      return false. */
  lemma {:induction false} SomeOfFirstDecides(rs: seq<Eval>, i: nat)
    requires i < |rs| && rs[i] != Val(false)
    requires forall j :: 0 <= j < i ==> rs[j] == Val(false)
    ensures SomeOf(rs) == rs[i]
    decreases i
  {
    if i > 0 {
      assert rs[1..][i - 1] == rs[i];
      SomeOfFirstDecides(rs[1..], i - 1);
    }
  }

  /** The first callback that does not return false, when there is one. */
  lemma {:induction false} FirstDecisive(rs: seq<Eval>, i: nat) returns (k: nat)
    requires i < |rs| && rs[i] != Val(false)
    ensures k <= i && rs[k] != Val(false) && forall j :: 0 <= j < k ==> rs[j] == Val(false)
    decreases i
  {
    if exists j :: 0 <= j < i && rs[j] != Val(false) {
      var j :| 0 <= j < i && rs[j] != Val(false);
      k := FirstDecisive(rs, j);
    } else {
      k := i;
    }
  }

  /** Without throwing callbacks, `some` is true exactly when a callback is. */
  lemma SomeOfWithoutThrows(rs: seq<Eval>)
    requires forall i :: 0 <= i < |rs| ==> rs[i] != Throws
    ensures SomeOf(rs) != Throws
    ensures SomeOf(rs) == Val(true) <==> exists i :: 0 <= i < |rs| && rs[i] == Val(true)
  {
    if exists i :: 0 <= i < |rs| && rs[i] == Val(true) {
      var i :| 0 <= i < |rs| && rs[i] == Val(true);
      var k := FirstDecisive(rs, i);
      SomeOfFirstDecides(rs, k);
    }
  }

  /* ---------------- Lexical-shaped JSON ---------------- */

  /** The JSON the editor produces: every node is an object, `text` when
      present is a string, `children` when present is an array of nodes. */
  predicate Shaped(n: Json)
    decreases n
  {
    n.JObj?
    && (match Get(n, "text") case Some(t) => t.JStr? case None => true)
    && (match Get(n, "children")
        case Some(c) => c.JArr? && forall i :: 0 <= i < |c.items| ==> Shaped(c.items[i])
        case None => true)
  }

  /** The children of `editorJSON.root`, or None when reading them throws. */
  function RootChildren(doc: Json): (r: Option<seq<Json>>)
    ensures r.Some? ==> exists root :: Get(doc, "root") == Some(root) && Get(root, "children") == Some(JArr(r.value))
  {
    match Get(doc, "root")
    case None => None
    case Some(root) =>
      match Get(root, "children")
      case Some(JArr(items)) => Some(items)
      case _ => None
  }

  predicate ShapedDoc(doc: Json) {
    RootChildren(doc).Some? && forall i :: 0 <= i < |RootChildren(doc).value| ==> Shaped(RootChildren(doc).value[i])
  }

  /** A node whose own `text` is a string with a non-whitespace character. */
  predicate NonBlankText(n: Json) {
    match Get(n, "text")
    case Some(JStr(s)) => !AllSpace(s)
    case _ => false
  }

  /** The node reached from `n` by following child indices through
      `children` arrays. */
  function NodeAt(n: Json, path: seq<nat>): (r: Option<Json>)
    ensures |path| == 0 ==> r == Some(n)
    decreases |path|
  {
    if |path| == 0 then Some(n)
    else if path[0] < |ChildList(n)| then NodeAt(ChildList(n)[path[0]], path[1..])
    else None
  }

  /* ---------------- The reply form's check ---------------- */

  /** `hasTextContent` of the reply form: own text first, then any child,
      recursively. */
  function ReplyHasTextContent(node: Json): Eval
    decreases node, 1
  {
    if node.JNull? then Throws
    else
      var text := Get(node, "text");
      if TruthyOpt(text) && !text.value.JStr? then Throws
      else if TruthyOpt(text) && |Trim(text.value.s)| > 0 then Val(true)
      else SomeOf(ReplyChildEvals(node))
  }

  /** The reply check of each child, when `children` is an array (none otherwise). */
  function ReplyChildEvals(node: Json): (rs: seq<Eval>)
    ensures |rs| == |ChildList(node)|
    decreases node, 0
  {
    match Get(node, "children")
    case Some(JArr(items)) => seq(|items|, i requires 0 <= i < |items| => ReplyHasTextContent(items[i]))
    case _ => []
  }

  /** The `children` array of a node, empty when there is none. */
  function ChildList(node: Json): (items: seq<Json>)
    ensures forall i :: 0 <= i < |items| ==> items[i] < node
  {
    match Get(node, "children")
    case Some(JArr(items)) => items
    case _ => []
  }

  lemma ReplyChildEvalAt(node: Json, i: nat)
    requires i < |ChildList(node)|
    ensures ReplyChildEvals(node)[i] == ReplyHasTextContent(ChildList(node)[i])
    ensures NodeAt(node, [i]) == Some(ChildList(node)[i])
  {
    var path: seq<nat> := [i];
    assert path[1..] == [];
  }

  /** `editorJSON.root.children.some(hasTextContent)`. */
  function ReplyHasContent(doc: Json): (r: Eval)
    ensures RootChildren(doc).None? ==> r == Throws
    ensures RootChildren(doc).Some? ==>
      (r == Val(false) <==>
       forall i :: 0 <= i < |RootChildren(doc).value| ==> ReplyHasTextContent(RootChildren(doc).value[i]) == Val(false))
  {
    match RootChildren(doc)
    case None => Throws
    case Some(items) => SomeOf(ReplyEvals(items))
  }

  lemma OwnTextDecides(node: Json)
    requires Shaped(node)
    ensures NonBlankText(node) ==> ReplyHasTextContent(node) == Val(true)
    ensures !NonBlankText(node) ==> ReplyHasTextContent(node) == SomeOf(ReplyChildEvals(node))
  {
    match Get(node, "text")
    case Some(JStr(s)) => TrimEmptyIffAllSpace(s);
    case _ =>
  }

  lemma ShapedChildren(node: Json)
    requires Shaped(node)
    ensures forall i :: 0 <= i < |ChildList(node)| ==> Shaped(ChildList(node)[i])
  {
  }

  /** On editor-shaped JSON the reply check never throws. */
  lemma {:induction false} ReplyCheckTotal(node: Json)
    requires Shaped(node)
    ensures ReplyHasTextContent(node) != Throws
    decreases node
  {
    OwnTextDecides(node);
    ShapedChildren(node);
    var items := ChildList(node);
    var rs := ReplyChildEvals(node);
    forall i | 0 <= i < |items|
      ensures rs[i] != Throws
    {
      ReplyChildEvalAt(node, i);
      ReplyCheckTotal(items[i]);
    }
    SomeOfWithoutThrows(rs);
  }

  /** The children's reply checks, none of which throws on shaped JSON. */
  lemma ShapedChildEvals(node: Json)
    requires Shaped(node)
    ensures forall i :: 0 <= i < |ReplyChildEvals(node)| ==> ReplyChildEvals(node)[i] != Throws
    ensures SomeOf(ReplyChildEvals(node)) != Throws
  {
    ShapedChildren(node);
    var rs := ReplyChildEvals(node);
    forall i | 0 <= i < |rs|
      ensures rs[i] != Throws
    {
      ReplyChildEvalAt(node, i);
      ReplyCheckTotal(ChildList(node)[i]);
    }
    SomeOfWithoutThrows(rs);
  }

  /** A path one step down: through child `i`, then `rest`. */
  lemma NodeAtStep(node: Json, path: seq<nat>)
    requires |path| > 0 && path[0] < |ChildList(node)|
    ensures NodeAt(node, path) == NodeAt(ChildList(node)[path[0]], path[1..])
  {
  }

  lemma ExtendPath(node: Json, i: nat, sub: seq<nat>)
    requires i < |ChildList(node)|
    ensures NodeAt(node, [i] + sub) == NodeAt(ChildList(node)[i], sub)
  {
    var path := [i] + sub;
    assert path[0] == i && path[1..] == sub;
  }

  lemma NodeAtLeaves(node: Json, path: seq<nat>)
    requires |path| > 0 && NodeAt(node, path).Some?
    ensures path[0] < |ChildList(node)|
  {
  }

  /** When the reply check passes on a node without text of its own, it
      passes on one of the node's children. */
  lemma PassingChild(node: Json) returns (i: nat)
    requires Shaped(node) && ReplyHasTextContent(node) == Val(true) && !NonBlankText(node)
    ensures i < |ChildList(node)| && Shaped(ChildList(node)[i])
    ensures ReplyHasTextContent(ChildList(node)[i]) == Val(true)
  {
    OwnTextDecides(node);
    ShapedChildEvals(node);
    ShapedChildren(node);
    var rs := ReplyChildEvals(node);
    SomeOfWithoutThrows(rs);
    i :| 0 <= i < |rs| && rs[i] == Val(true);
    ReplyChildEvalAt(node, i);
  }

  /** The reply check is true only when some node of the tree carries
      non-blank text; the path returned leads to it. */
  lemma {:induction false} ReplyTrueHasWitness(node: Json) returns (path: seq<nat>)
    requires Shaped(node) && ReplyHasTextContent(node) == Val(true)
    ensures NodeAt(node, path).Some? && NonBlankText(NodeAt(node, path).value)
    decreases node
  {
    if NonBlankText(node) {
      path := [];
    } else {
      var i := PassingChild(node);
      var sub := ReplyTrueHasWitness(ChildList(node)[i]);
      ExtendPath(node, i, sub);
      path := [i] + sub;
    }
  }

  /** Any node with non-blank text, however deep, makes the reply check true. */
  lemma {:induction false} WitnessMakesReplyTrue(node: Json, path: seq<nat>)
    requires Shaped(node)
    requires NodeAt(node, path).Some? && NonBlankText(NodeAt(node, path).value)
    ensures ReplyHasTextContent(node) == Val(true)
    decreases |path|
  {
    OwnTextDecides(node);
    if |path| > 0 && !NonBlankText(node) {
      NodeAtLeaves(node, path);
      NodeAtStep(node, path);
      ShapedChildren(node);
      ShapedChildEvals(node);
      var i := path[0];
      WitnessMakesReplyTrue(ChildList(node)[i], path[1..]);
      ReplyChildEvalAt(node, i);
      SomeOfWithoutThrows(ReplyChildEvals(node));
    }
  }

  /** Reference meaning of the reply check on editor-shaped JSON: it holds
      exactly when some node of the tree has non-blank text. */
  lemma ReplyCheckMeaning(node: Json)
    requires Shaped(node)
    ensures ReplyHasTextContent(node) != Throws
    ensures ReplyHasTextContent(node) == Val(true) <==>
      exists path :: NodeAt(node, path).Some? && NonBlankText(NodeAt(node, path).value)
  {
    ReplyCheckTotal(node);
    if ReplyHasTextContent(node) == Val(true) {
      var path := ReplyTrueHasWitness(node);
    }
    if exists path :: NodeAt(node, path).Some? && NonBlankText(NodeAt(node, path).value) {
      var path :| NodeAt(node, path).Some? && NonBlankText(NodeAt(node, path).value);
      WitnessMakesReplyTrue(node, path);
    }
  }

  /* ---------------- The comment form's check ---------------- */

  /** `textNode.text && textNode.text.trim().length > 0`. */
  function CommentTextNode(t: Json): Eval {
    if t.JNull? then Throws
    else
      var text := Get(t, "text");
      if !TruthyOpt(text) then Val(false)
      else if !text.value.JStr? then Throws
      else Val(|Trim(text.value.s)| > 0)
  }

  predicate IsParagraph(node: Json) {
    Get(node, "type") == Some(JStr("paragraph"))
  }

  /** The comment form looks only at the direct children of top-level
      paragraphs. */
  function CommentChild(child: Json): Eval {
    if child.JNull? then Throws
    else if IsParagraph(child) && TruthyOpt(Get(child, "children")) then
      if Get(child, "children").value.JArr? then SomeOf(TextNodeEvals(child)) else Throws
    else Val(false)
  }

  function TextNodeEvals(child: Json): (rs: seq<Eval>)
    ensures |rs| == |ChildList(child)|
    ensures forall j :: 0 <= j < |rs| ==> rs[j] == CommentTextNode(ChildList(child)[j])
  {
    var texts := ChildList(child);
    seq(|texts|, j requires 0 <= j < |texts| => CommentTextNode(texts[j]))
  }

  /** The comment check of each top-level child. */
  function CommentEvals(items: seq<Json>): (rs: seq<Eval>)
    ensures |rs| == |items|
    ensures forall i :: 0 <= i < |rs| ==> rs[i] == CommentChild(items[i])
  {
    seq(|items|, i requires 0 <= i < |items| => CommentChild(items[i]))
  }

  /** `editorJSON.root.children.some(...)` of the comment form. */
  function CommentHasContent(doc: Json): (r: Eval)
    ensures RootChildren(doc).None? ==> r == Throws
    ensures RootChildren(doc).Some? ==>
      (r == Val(false) <==>
       forall i :: 0 <= i < |RootChildren(doc).value| ==> CommentChild(RootChildren(doc).value[i]) == Val(false))
  {
    match RootChildren(doc)
    case None => Throws
    case Some(items) => SomeOf(CommentEvals(items))
  }

  /** A paragraph whose child `j` has non-blank text. */
  predicate ParagraphTextAt(child: Json, j: nat) {
    IsParagraph(child) && j < |ChildList(child)| && NonBlankText(ChildList(child)[j])
  }

  lemma CommentTextNodeMeaning(t: Json)
    requires Shaped(t)
    ensures CommentTextNode(t) == Val(NonBlankText(t))
  {
    match Get(t, "text")
    case Some(JStr(s)) => TrimEmptyIffAllSpace(s);
    case _ =>
  }

  lemma TextNodeEvalsMeaning(child: Json)
    requires Shaped(child)
    ensures forall j :: 0 <= j < |TextNodeEvals(child)| ==> TextNodeEvals(child)[j] == Val(NonBlankText(ChildList(child)[j]))
  {
    ShapedChildren(child);
    forall j | 0 <= j < |TextNodeEvals(child)|
      ensures TextNodeEvals(child)[j] == Val(NonBlankText(ChildList(child)[j]))
    {
      CommentTextNodeMeaning(ChildList(child)[j]);
    }
  }

  lemma CommentChildTotal(child: Json)
    requires Shaped(child)
    ensures CommentChild(child) != Throws
  {
    TextNodeEvalsMeaning(child);
    SomeOfWithoutThrows(TextNodeEvals(child));
  }

  lemma CommentChildTrue(child: Json) returns (j: nat)
    requires Shaped(child) && CommentChild(child) == Val(true)
    ensures ParagraphTextAt(child, j)
  {
    TextNodeEvalsMeaning(child);
    var rs := TextNodeEvals(child);
    SomeOfWithoutThrows(rs);
    j :| 0 <= j < |rs| && rs[j] == Val(true);
  }

  lemma CommentChildFromWitness(child: Json, j: nat)
    requires Shaped(child) && ParagraphTextAt(child, j)
    ensures CommentChild(child) == Val(true)
  {
    TextNodeEvalsMeaning(child);
    var rs := TextNodeEvals(child);
    assert rs[j] == Val(true);
    SomeOfWithoutThrows(rs);
  }

  /** Reference meaning of the comment check on editor-shaped JSON: it holds
      exactly when some top-level paragraph has a direct child with non-blank
      text. */
  lemma CommentCheckMeaning(doc: Json)
    requires ShapedDoc(doc)
    ensures CommentHasContent(doc) != Throws
    ensures CommentHasContent(doc) == Val(true) <==>
      exists i, j :: 0 <= i < |RootChildren(doc).value| && ParagraphTextAt(RootChildren(doc).value[i], j)
  {
    var items := RootChildren(doc).value;
    var rs := CommentEvals(items);
    forall i | 0 <= i < |items|
      ensures rs[i] != Throws
    {
      CommentChildTotal(items[i]);
    }
    SomeOfWithoutThrows(rs);
    if CommentHasContent(doc) == Val(true) {
      var i :| 0 <= i < |rs| && rs[i] == Val(true);
      var j := CommentChildTrue(items[i]);
    }
    if exists i, j :: 0 <= i < |items| && ParagraphTextAt(items[i], j) {
      var i, j :| 0 <= i < |items| && ParagraphTextAt(items[i], j);
      CommentChildFromWitness(items[i], j);
      assert rs[i] == Val(true);
    }
  }

  /** The reply check of each top-level child. */
  function ReplyEvals(items: seq<Json>): (rs: seq<Eval>)
    ensures |rs| == |items|
    ensures forall i :: 0 <= i < |rs| ==> rs[i] == ReplyHasTextContent(items[i])
  {
    seq(|items|, i requires 0 <= i < |items| => ReplyHasTextContent(items[i]))
  }

  lemma ReplyCheckOfDoc(doc: Json)
    requires ShapedDoc(doc)
    ensures ReplyHasContent(doc) != Throws
    ensures ReplyHasContent(doc) == Val(true) <==>
      exists i :: 0 <= i < |RootChildren(doc).value| && ReplyHasTextContent(RootChildren(doc).value[i]) == Val(true)
  {
    var items := RootChildren(doc).value;
    var rs := ReplyEvals(items);
    forall i | 0 <= i < |items|
      ensures rs[i] != Throws
    {
      ReplyCheckTotal(items[i]);
    }
    SomeOfWithoutThrows(rs);
  }

  /** On editor-shaped JSON every comment the comment form accepts as
      non-empty the reply form accepts too. */
  lemma CommentCheckImpliesReplyCheck(doc: Json)
    requires ShapedDoc(doc) && CommentHasContent(doc) == Val(true)
    ensures ReplyHasContent(doc) == Val(true)
  {
    var items := RootChildren(doc).value;
    CommentCheckMeaning(doc);
    var i, j :| 0 <= i < |items| && ParagraphTextAt(items[i], j);
    ReplyChildEvalAt(items[i], j);
    WitnessMakesReplyTrue(items[i], [j]);
    ReplyCheckOfDoc(doc);
    assert ReplyHasTextContent(items[i]) == Val(true);
  }

  /* ---------------- Where the two checks differ ---------------- */

  function TextNode(s: string): Json {
    JObj([Field("type", JStr("text")), Field("text", JStr(s))])
  }

  function Element(kind: string, children: seq<Json>): Json {
    JObj([Field("type", JStr(kind)), Field("children", JArr(children))])
  }

  function Document(children: seq<Json>): Json {
    JObj([Field("root", Element("root", children))])
  }

  lemma ElementFields(kind: string, children: seq<Json>)
    ensures Get(Element(kind, children), "type") == Some(JStr(kind))
    ensures Get(Element(kind, children), "children") == Some(JArr(children))
    ensures Get(Element(kind, children), "text") == None
    ensures ChildList(Element(kind, children)) == children
  {
    GetOfLiteral(Element(kind, children).fields, 1);
  }

  lemma DocumentFields(children: seq<Json>)
    ensures RootChildren(Document(children)) == Some(children)
    ensures (forall i :: 0 <= i < |children| ==> Shaped(children[i])) ==> ShapedDoc(Document(children))
  {
    assert Get(Document(children), "root") == Some(Element("root", children));
    ElementFields("root", children);
  }

  lemma TextNodeFields(s: string)
    ensures Get(TextNode(s), "text") == Some(JStr(s))
    ensures Get(TextNode(s), "children") == None
    ensures ChildList(TextNode(s)) == []
  {
    GetOfLiteral(TextNode(s).fields, 1);
  }

  lemma HiIsNonBlank()
    ensures Shaped(TextNode("Hi")) && NonBlankText(TextNode("Hi"))
    ensures CommentTextNode(TextNode("Hi")) == Val(true)
  {
    TextNodeFields("Hi");
    assert !IsSpace("Hi"[0]);
    CommentTextNodeMeaning(TextNode("Hi"));
  }

  /** An element whose children are shaped is shaped. */
  lemma ElementShaped(kind: string, children: seq<Json>)
    requires forall i :: 0 <= i < |children| ==> Shaped(children[i])
    ensures Shaped(Element(kind, children))
  {
    ElementFields(kind, children);
  }

  lemma HeadingShaped()
    ensures Shaped(Element("heading", [TextNode("Hi")]))
  {
    HiIsNonBlank();
    ElementShaped("heading", [TextNode("Hi")]);
  }

  lemma HeadingSkippedByComment()
    ensures CommentChild(Element("heading", [TextNode("Hi")])) == Val(false)
  {
    ElementFields("heading", [TextNode("Hi")]);
  }

  lemma HeadingPassesReply()
    ensures ReplyHasTextContent(Element("heading", [TextNode("Hi")])) == Val(true)
  {
    var heading := Element("heading", [TextNode("Hi")]);
    HeadingShaped();
    ElementFields("heading", [TextNode("Hi")]);
    HiIsNonBlank();
    ReplyChildEvalAt(heading, 0);
    WitnessMakesReplyTrue(heading, [0]);
  }

  function HeadingDocument(): Json {
    Document([Element("heading", [TextNode("Hi")])])
  }

  lemma HeadingDocumentShaped()
    ensures ShapedDoc(HeadingDocument())
  {
    HeadingShaped();
    DocumentFields([Element("heading", [TextNode("Hi")])]);
  }

  lemma HeadingDocumentComment()
    ensures CommentHasContent(HeadingDocument()) == Val(false)
  {
    var heading := Element("heading", [TextNode("Hi")]);
    HeadingSkippedByComment();
    DocumentFields([heading]);
    assert CommentEvals([heading]) == [Val(false)];
  }

  lemma HeadingDocumentReply()
    ensures ReplyHasContent(HeadingDocument()) == Val(true)
  {
    var heading := Element("heading", [TextNode("Hi")]);
    HeadingPassesReply();
    DocumentFields([heading]);
    assert ReplyEvals([heading]) == [Val(true)];
  }

  /** Text under a heading (or a list, a quote...) satisfies the reply form
      but the comment form reports "Please write a comment". */
  lemma HeadingOnlyComment()
    ensures var doc := Document([Element("heading", [TextNode("Hi")])]);
      ShapedDoc(doc) && CommentHasContent(doc) == Val(false) && ReplyHasContent(doc) == Val(true)
  {
    HeadingDocumentShaped();
    HeadingDocumentComment();
    HeadingDocumentReply();
  }

  lemma NullChildHeadingSkipped()
    ensures CommentChild(Element("heading", [JNull])) == Val(false)
  {
    ElementFields("heading", [JNull]);
  }

  lemma NullChildHeadingThrows()
    ensures ReplyHasTextContent(Element("heading", [JNull])) == Throws
  {
    var heading := Element("heading", [JNull]);
    ElementFields("heading", [JNull]);
    ReplyChildEvalAt(heading, 0);
    assert ReplyChildEvals(heading) == [Throws];
  }

  lemma HiParagraphWitness()
    ensures Shaped(Element("paragraph", [TextNode("Hi")]))
    ensures ParagraphTextAt(Element("paragraph", [TextNode("Hi")]), 0)
  {
    HiIsNonBlank();
    ElementShaped("paragraph", [TextNode("Hi")]);
    ElementFields("paragraph", [TextNode("Hi")]);
  }

  lemma HiParagraph()
    ensures CommentChild(Element("paragraph", [TextNode("Hi")])) == Val(true)
  {
    HiParagraphWitness();
    CommentChildFromWitness(Element("paragraph", [TextNode("Hi")]), 0);
  }

  function NullChildDocument(): Json {
    Document([Element("heading", [JNull]), Element("paragraph", [TextNode("Hi")])])
  }

  lemma FalseThenTrue()
    ensures SomeOf([Val(false), Val(true)]) == Val(true)
  {
    assert [Val(false), Val(true)][1..] == [Val(true)];
  }

  lemma NullChildComment()
    ensures CommentHasContent(NullChildDocument()) == Val(true)
  {
    var heading := Element("heading", [JNull]);
    var para := Element("paragraph", [TextNode("Hi")]);
    NullChildHeadingSkipped();
    HiParagraph();
    DocumentFields([heading, para]);
    var cs := CommentEvals([heading, para]);
    assert cs[0] == Val(false) && cs[1] == Val(true);
    assert cs == [Val(false), Val(true)];
    FalseThenTrue();
    assert CommentHasContent(Document([heading, para])) == SomeOf(cs);
  }

  lemma NullChildReply()
    ensures ReplyHasContent(NullChildDocument()) == Throws
  {
    var heading := Element("heading", [JNull]);
    var para := Element("paragraph", [TextNode("Hi")]);
    NullChildHeadingThrows();
    DocumentFields([heading, para]);
    var rs := ReplyEvals([heading, para]);
    assert rs[0] == Throws;
    SomeOfFirstDecides(rs, 0);
  }

  /** Off the editor's shape the implication fails: a `null` child of an
      earlier heading makes the reply check throw while the comment check,
      which skips non-paragraphs, finds the paragraph text. */
  lemma NullChildSplitsTheChecks()
    ensures CommentHasContent(NullChildDocument()) == Val(true)
    ensures ReplyHasContent(NullChildDocument()) == Throws
  {
    NullChildComment();
    NullChildReply();
  }
}
