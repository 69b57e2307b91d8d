/** Reading time of a post: the plain text of its rich-text (Lexical JSON)
    content, its word count, and the minutes at 200 words per minute. */
module ReadingTime {
  import opened Wrappers
  import opened JsText
  import opened Json

  /* ---------------- Text extraction ---------------- */

  /** `children.map(f).join(' ')`. */
  function JoinSpace(parts: seq<string>): string {
    if |parts| == 0 then ""
    else if |parts| == 1 then parts[0]
    else parts[0] + " " + JoinSpace(parts[1..])
  }

  /** How `extractTextFromLexical` treats a node, in the order it tests. */
  datatype Kind = Leaf(text: string) | Branch(items: seq<Json>) | Wrapper(root: Json) | Blank

  function KindOf(node: Json): (k: Kind)
    ensures k.Branch? ==> forall i :: 0 <= i < |k.items| ==> k.items[i] < node
    ensures k.Wrapper? ==> k.root < node && (k.root.JObj? || k.root.JArr?)
    ensures !node.JObj? ==> k == Blank
  {
    if !node.JObj? then Blank
    else
      var text := Get(node, "text");
      if Get(node, "type") == Some(JStr("text")) && text.Some? && text.value.JStr? then Leaf(text.value.s)
      else match Get(node, "children")
        case Some(JArr(items)) => Branch(items)
        case _ =>
          match Get(node, "root")
          case Some(root) => if root.JObj? || root.JArr? then Wrapper(root) else Blank
          case None => Blank
  }

  /** `extractTextFromLexical`. */
  function ExtractText(node: Json): (r: string)
    ensures !node.JObj? ==> r == ""
    ensures Get(node, "type") == Some(JStr("text")) && Get(node, "text").Some? && Get(node, "text").value.JStr?
            ==> r == Get(node, "text").value.s
    decreases node
  {
    match KindOf(node)
    case Leaf(s) => s
    case Branch(items) =>
      JoinSpace(seq(|items|, i requires 0 <= i < |items| => ExtractText(items[i])))
    case Wrapper(root) => ExtractText(root)
    case Blank => ""
  }

  /* ---------------- Words ---------------- */

  /** Length of the leading run of non-whitespace characters. */
  function FirstWordLength(s: string): (n: nat)
    ensures n <= |s|
    ensures forall i :: 0 <= i < n ==> !IsSpace(s[i])
    ensures n < |s| ==> IsSpace(s[n])
  {
    if |s| == 0 || IsSpace(s[0]) then 0 else 1 + FirstWordLength(s[1..])
  }

  /** A non-empty run of non-whitespace characters. */
  predicate IsWord(w: string) {
    |w| > 0 && forall j :: 0 <= j < |w| ==> !IsSpace(w[j])
  }

  /** The first run of a string that starts with a non-space is a word. */
  lemma FirstWordIsWord(t: string)
    requires |t| > 0 && !IsSpace(t[0])
    ensures IsWord(t[..FirstWordLength(t)])
  {
  }

  /** `text.trim().split(/\s+/).filter(Boolean)`: the maximal runs of
      non-whitespace characters, in order. */
  function Words(s: string): (ws: seq<string>)
    ensures forall k :: 0 <= k < |ws| ==> IsWord(ws[k])
    decreases |s|
  {
    var t := TrimStart(s);
    if |t| == 0 then []
    else
      var n := FirstWordLength(t);
      FirstWordIsWord(t);
      var rest := Words(t[n..]);
      ConsWord(t[..n], rest);
      [t[..n]] + rest
  }

  lemma ConsWord(w: string, ws: seq<string>)
    requires IsWord(w) && forall k :: 0 <= k < |ws| ==> IsWord(ws[k])
    ensures forall k :: 0 <= k < |[w] + ws| ==> IsWord(([w] + ws)[k])
  {
    forall k | 0 < k < |[w] + ws|
      ensures IsWord(([w] + ws)[k])
    {
      assert ([w] + ws)[k] == ws[k - 1];
    }
  }

  lemma TrimStartOfAllSpace(a: string, b: string)
    requires AllSpace(a)
    ensures TrimStart(a + b) == TrimStart(b)
    decreases |a|
  {
    if |a| > 0 {
      assert (a + b)[0] == a[0] && IsSpace(a[0]);
      assert (a + b)[1..] == a[1..] + b;
      assert AllSpace(a[1..]) by {
        forall i | 0 <= i < |a| - 1
          ensures IsSpace(a[1..][i])
        {
          assert a[1..][i] == a[i + 1];
        }
      }
      TrimStartOfAllSpace(a[1..], b);
    } else {
      assert a + b == b;
    }
  }

  lemma TrimStartOfWordy(a: string, b: string)
    requires !AllSpace(a)
    ensures TrimStart(a + b) == TrimStart(a) + b
    decreases |a|
  {
    if IsSpace(a[0]) {
      assert (a + b)[1..] == a[1..] + b;
      TrimStartOfWordy(a[1..], b);
    }
  }

  lemma FirstWordLengthPrefix(a: string, b: string)
    requires |a| > 0 && !AllSpace(a)
    requires |b| > 0 && IsSpace(b[0])
    ensures FirstWordLength(a + b) == FirstWordLength(a)
    decreases |a|
  {
    if !IsSpace(a[0]) && |a| > 1 {
      assert (a + b)[1..] == a[1..] + b;
      if AllSpace(a[1..]) {
        assert IsSpace(a[1]);
      } else {
        FirstWordLengthPrefix(a[1..], b);
      }
    } else if !IsSpace(a[0]) {
      assert (a + b)[1..] == b;
    }
  }

  lemma WordsOfAllSpace(s: string)
    requires AllSpace(s)
    ensures Words(s) == []
  {
    TrimStartOfAllSpace(s, "");
    assert s + "" == s;
  }

  /** Words of a string that starts with a word. */
  lemma WordsOfWordStart(t: string)
    requires |t| > 0 && !IsSpace(t[0])
    ensures Words(t) == [t[..FirstWordLength(t)]] + Words(t[FirstWordLength(t)..])
  {
  }

  /** The first word of `t + " " + b` is the first word of `t`. */
  lemma JoinedFirstWord(t: string, b: string)
    requires |t| > 0 && !IsSpace(t[0])
    ensures FirstWordLength(t + " " + b) == FirstWordLength(t)
  {
    assert t + " " + b == t + (" " + b);
    assert !AllSpace(t);
    FirstWordLengthPrefix(t, " " + b);
  }

  lemma JoinedSlices(t: string, b: string, n: nat)
    requires n <= |t|
    ensures (t + " " + b)[..n] == t[..n] && (t + " " + b)[n..] == t[n..] + " " + b
  {
  }

  /** Leading whitespace before the join: `TrimStart(a + " " + b)`. */
  lemma TrimStartOfJoin(a: string, b: string)
    ensures AllSpace(a) ==> TrimStart(a + " " + b) == TrimStart(b)
    ensures !AllSpace(a) ==> TrimStart(a + " " + b) == TrimStart(a) + " " + b
  {
    if AllSpace(a) {
      assert AllSpace(a + " ");
      assert a + " " + b == (a + " ") + b;
      TrimStartOfAllSpace(a + " ", b);
    } else {
      assert a + " " + b == a + (" " + b);
      TrimStartOfWordy(a, " " + b);
      assert TrimStart(a) + (" " + b) == TrimStart(a) + " " + b;
    }
  }

  lemma WordsOfTrimStart(s: string)
    ensures Words(TrimStart(s)) == Words(s)
  {
    var t := TrimStart(s);
    if |t| > 0 {
      assert TrimStart(t) == t;
    }
  }

  /* ---------------- Words as a decomposition ---------------- */

  /** `gaps[0] + ws[0] + gaps[1] + ... + ws[n-1] + gaps[n]`. */
  function Weave(gaps: seq<string>, ws: seq<string>): string
    requires |gaps| == |ws| + 1
    decreases |ws|
  {
    if |ws| == 0 then gaps[0] else gaps[0] + ws[0] + Weave(gaps[1..], ws[1..])
  }

  /** `s` is the words `ws` with whitespace `gaps` around and between them,
      at least one whitespace character between two words: every
      non-whitespace character of `s` lies in some word, and no word can be
      extended. */
  predicate Separates(gaps: seq<string>, ws: seq<string>, s: string) {
    |gaps| == |ws| + 1
    && (forall i :: 0 <= i < |gaps| ==> AllSpace(gaps[i]))
    && (forall i :: 0 < i < |ws| ==> |gaps[i]| > 0)
    && (forall k :: 0 <= k < |ws| ==> IsWord(ws[k]))
    && s == Weave(gaps, ws)
  }

  /** A decomposition of a string that is empty or starts with whitespace
      has a non-empty leading gap when it has a word. */
  lemma LeadingGap(gaps: seq<string>, ws: seq<string>, s: string)
    requires Separates(gaps, ws, s) && |ws| > 0
    requires |s| == 0 || IsSpace(s[0])
    ensures |gaps[0]| > 0
  {
  }

  /** Putting a word and its leading gap in front of a decomposition. */
  lemma SeparatesCons(lead: string, w: string, gaps: seq<string>, ws: seq<string>, rest: string)
    requires AllSpace(lead) && IsWord(w) && Separates(gaps, ws, rest)
    requires |ws| == 0 || |gaps[0]| > 0
    ensures Separates([lead] + gaps, [w] + ws, lead + w + rest)
  {
    var gaps', ws' := [lead] + gaps, [w] + ws;
    assert gaps'[1..] == gaps && ws'[1..] == ws;
    forall i | 0 < i < |gaps'|
      ensures AllSpace(gaps'[i])
    {
      assert gaps'[i] == gaps[i - 1];
    }
    forall i | 0 < i < |ws'|
      ensures |gaps'[i]| > 0
    {
      assert gaps'[i] == gaps[i - 1];
    }
    forall k | 0 < k < |ws'|
      ensures IsWord(ws'[k])
    {
      assert ws'[k] == ws[k - 1];
    }
  }

  /** Taking the leading gap and first word off a decomposition. */
  lemma SeparatesTail(gaps: seq<string>, ws: seq<string>, s: string)
    requires Separates(gaps, ws, s) && |ws| > 0
    ensures Separates(gaps[1..], ws[1..], Weave(gaps[1..], ws[1..]))
    ensures s == gaps[0] + (ws[0] + Weave(gaps[1..], ws[1..]))
    ensures |ws| > 1 ==> |gaps[1]| > 0
    ensures var r := Weave(gaps[1..], ws[1..]); |r| == 0 || IsSpace(r[0])
  {
    if |ws| > 1 {
      var r := Weave(gaps[1..], ws[1..]);
      assert r == gaps[1] + ws[1] + Weave(gaps[2..], ws[2..]);
      assert r[0] == gaps[1][0];
    }
    assert gaps[0] + ws[0] + Weave(gaps[1..], ws[1..]) == gaps[0] + (ws[0] + Weave(gaps[1..], ws[1..]));
    forall i | 0 < i < |ws| - 1
      ensures |gaps[1..][i]| > 0
    {
      assert gaps[1..][i] == gaps[i + 1];
    }
  }

  /** `Words` finds a decomposition of every string. */
  lemma {:induction false} WordsSeparated(s: string) returns (gaps: seq<string>)
    ensures Separates(gaps, Words(s), s)
    decreases |s|
  {
    var t := TrimStart(s);
    var lead := s[..|s| - |t|];
    if |t| == 0 {
      assert lead == s;
      gaps := [s];
    } else {
      var n := FirstWordLength(t);
      var w, rest := t[..n], t[n..];
      Split3(s, |s| - |t|, |s| - |t| + n);
      FirstWordIsWord(t);
      assert Words(s) == [w] + Words(rest);
      var more := WordsSeparated(rest);
      if |Words(rest)| > 0 {
        LeadingGap(more, Words(rest), rest);
      }
      SeparatesCons(lead, w, more, Words(rest), rest);
      gaps := [lead] + more;
    }
  }

  lemma Split3(s: string, i: nat, j: nat)
    requires i <= j <= |s|
    ensures s == s[..i] + s[i..j] + s[j..]
    ensures s[i..][..j - i] == s[i..j] && s[i..][j - i..] == s[j..]
  {
  }

  /** The first run of a word followed by nothing or by whitespace is the word. */
  lemma {:induction false} FirstWordOfWord(w: string, r: string)
    requires IsWord(w) && (|r| == 0 || IsSpace(r[0]))
    ensures FirstWordLength(w + r) == |w|
    decreases |w|
  {
    assert (w + r)[0] == w[0];
    if |w| > 1 {
      assert (w + r)[1..] == w[1..] + r;
      FirstWordOfWord(w[1..], r);
    } else {
      assert (w + r)[1..] == r;
    }
  }

  /** `Words` of a word followed by nothing or by whitespace and more. */
  lemma WordsOfWordThen(w: string, r: string)
    requires IsWord(w) && (|r| == 0 || IsSpace(r[0]))
    ensures Words(w + r) == [w] + Words(r)
  {
    var t := w + r;
    assert t[0] == w[0];
    FirstWordOfWord(w, r);
    assert t[..|w|] == w && t[|w|..] == r;
    WordsOfWordStart(t);
  }

  /** Leading whitespace, then a word, then nothing or whitespace and more. */
  lemma WordsAfterGap(g: string, w: string, r: string)
    requires AllSpace(g) && IsWord(w) && (|r| == 0 || IsSpace(r[0]))
    ensures Words(g + (w + r)) == [w] + Words(r)
  {
    var t := w + r;
    assert t[0] == w[0];
    assert TrimStart(t) == t;
    TrimStartOfAllSpace(g, t);
    WordsOfTrimStart(g + t);
    WordsOfWordThen(w, r);
  }

  lemma UniqueStep(g: string, w: string, r: string, ws: seq<string>, s: string)
    requires AllSpace(g) && IsWord(w) && (|r| == 0 || IsSpace(r[0]))
    requires s == g + (w + r) && ws == [w] + Words(r)
    ensures ws == Words(s)
  {
    WordsAfterGap(g, w, r);
  }

  /** The decomposition is unique: whatever words separate `s` are `Words(s)`. */
  lemma {:induction false} WordsUnique(gaps: seq<string>, ws: seq<string>, s: string)
    requires Separates(gaps, ws, s)
    ensures ws == Words(s)
    decreases |ws|
  {
    if |ws| == 0 {
      WordsOfAllSpace(s);
    } else {
      SeparatesTail(gaps, ws, s);
      var r := Weave(gaps[1..], ws[1..]);
      WordsUnique(gaps[1..], ws[1..], r);
      assert ws == [ws[0]] + ws[1..];
      UniqueStep(gaps[0], ws[0], r, ws, s);
    }
  }

  /** `Words(s)` is exactly the sequence of words that separates `s`. */
  lemma WordsCharacterised(s: string, ws: seq<string>)
    ensures ws == Words(s) <==> exists gaps :: Separates(gaps, ws, s)
  {
    if ws == Words(s) {
      var gaps := WordsSeparated(s);
    }
    if gaps :| Separates(gaps, ws, s) {
      WordsUnique(gaps, ws, s);
    }
  }

  lemma WordsOfJoinBlank(a: string, b: string)
    requires AllSpace(a)
    ensures Words(a + " " + b) == Words(a) + Words(b)
  {
    TrimStartOfJoin(a, b);
    WordsOfTrimStart(a + " " + b);
    WordsOfTrimStart(b);
    WordsOfAllSpace(a);
  }

  /** The step of the join induction: peel the first word of `a`. */
  lemma WordsOfJoinStep(a: string, b: string) returns (rest: string)
    requires !AllSpace(a)
    ensures |rest| < |a|
    ensures Words(a + " " + b) == [TrimStart(a)[..FirstWordLength(TrimStart(a))]] + Words(rest + " " + b)
    ensures Words(a) == [TrimStart(a)[..FirstWordLength(TrimStart(a))]] + Words(rest)
  {
    TrimStartOfJoin(a, b);
    var t := TrimStart(a);
    assert |t| > 0 && !IsSpace(t[0]);
    var n := FirstWordLength(t);
    rest := t[n..];
    JoinedFirstWord(t, b);
    JoinedSlices(t, b, n);
    assert (t + " " + b)[0] == t[0];
    WordsOfTrimStart(a + " " + b);
    WordsOfWordStart(t + " " + b);
    WordsOfWordStart(t);
    WordsOfTrimStart(a);
  }

  lemma ConcatAssoc(x: seq<string>, y: seq<string>, w: seq<string>, r: seq<string>, s: seq<string>, z: seq<string>)
    requires x == w + y && s == w + r && y == r + z
    ensures x == s + z
  {
  }

  /** Joining with a single space neither merges nor splits words. */
  lemma {:induction false} WordsOfJoin(a: string, b: string)
    ensures Words(a + " " + b) == Words(a) + Words(b)
    decreases |a|
  {
    if AllSpace(a) {
      WordsOfJoinBlank(a, b);
    } else {
      var rest := WordsOfJoinStep(a, b);
      WordsOfJoin(rest, b);
      ConcatAssoc(Words(a + " " + b), Words(rest + " " + b), [TrimStart(a)[..FirstWordLength(TrimStart(a))]],
        Words(rest), Words(a), Words(b));
    }
  }

  /* ---------------- Words per text leaf ---------------- */

  function Concat(xss: seq<seq<string>>): seq<string> {
    if |xss| == 0 then [] else xss[0] + Concat(xss[1..])
  }

  /** The words of the text leaves extraction reaches, leaf by leaf in
      document order. */
  function LeafWords(node: Json): seq<string>
    decreases node
  {
    match KindOf(node)
    case Leaf(s) => Words(s)
    case Branch(items) =>
      Concat(seq(|items|, i requires 0 <= i < |items| => LeafWords(items[i])))
    case Wrapper(root) => LeafWords(root)
    case Blank => []
  }

  lemma {:induction false} WordsOfJoinSpace(parts: seq<string>, words: seq<seq<string>>)
    requires |words| == |parts|
    requires forall i :: 0 <= i < |parts| ==> Words(parts[i]) == words[i]
    ensures Words(JoinSpace(parts)) == Concat(words)
  {
    if |parts| == 0 {
      assert Words("") == [];
    } else if |parts| == 1 {
      assert Concat(words[1..]) == [];
      assert Concat(words) == words[0] + [];
    } else {
      WordsOfJoin(parts[0], JoinSpace(parts[1..]));
      WordsOfJoinSpace(parts[1..], words[1..]);
    }
  }

  lemma {:induction false} ExtractedWordsOfChildren(items: seq<Json>, node: Json)
    requires forall i :: 0 <= i < |items| ==> items[i] < node
    requires forall i :: 0 <= i < |items| ==> Words(ExtractText(items[i])) == LeafWords(items[i])
    ensures Words(JoinSpace(seq(|items|, i requires 0 <= i < |items| => ExtractText(items[i]))))
         == Concat(seq(|items|, i requires 0 <= i < |items| => LeafWords(items[i])))
  {
    var parts := seq(|items|, i requires 0 <= i < |items| => ExtractText(items[i]));
    var words := seq(|items|, i requires 0 <= i < |items| => LeafWords(items[i]));
    WordsOfJoinSpace(parts, words);
  }

  /** The words of the extracted text are exactly the words of the text
      leaves, in order: the space join adds no word and glues none. */
  lemma {:induction false} ExtractedWords(node: Json)
    ensures Words(ExtractText(node)) == LeafWords(node)
    decreases node
  {
    match KindOf(node)
    case Leaf(s) =>
    case Branch(items) =>
      forall i | 0 <= i < |items|
        ensures Words(ExtractText(items[i])) == LeafWords(items[i])
      {
        ExtractedWords(items[i]);
      }
      ExtractedWordsOfChildren(items, node);
    case Wrapper(root) =>
      ExtractedWords(root);
    case Blank =>
      assert Words("") == [];
  }

  /* ---------------- Reading time ---------------- */

  /** `Math.max(1, Math.ceil(words / 200))`. */
  function MinutesFor(words: nat): (minutes: int)
    ensures minutes >= 1
    ensures minutes == 1 <==> words <= 200
    ensures minutes > 1 ==> (minutes - 1) * 200 < words <= minutes * 200
  {
    var ceiling := (words + 199) / 200;
    if ceiling < 1 then 1 else ceiling
  }

  /** More words never mean fewer minutes. */
  lemma MinutesMonotone(a: nat, b: nat)
    requires a <= b
    ensures MinutesFor(a) <= MinutesFor(b)
  {
  }

  lemma MinutesExamples()
    ensures MinutesFor(0) == 1 && MinutesFor(200) == 1 && MinutesFor(201) == 2
  {
  }

  /** `calculateReadingTime`. */
  function CalculateReadingTime(text: string): (minutes: int)
    ensures minutes >= 1
    ensures minutes == 1 <==> |Words(text)| <= 200
    ensures minutes > 1 ==> (minutes - 1) * 200 < |Words(text)| <= minutes * 200
  {
    MinutesFor(|Words(text)|)
  }

  /** `populateReadingTime`: 1 minute when the content is missing or falsy. */
  function PopulateReadingTime(data: Json): (minutes: int)
    ensures minutes >= 1
    ensures !TruthyOpt(Get(data, "content")) ==> minutes == 1
    ensures TruthyOpt(Get(data, "content")) ==>
      minutes == MinutesFor(|LeafWords(Get(data, "content").value)|)
  {
    var content := Get(data, "content");
    if !TruthyOpt(content) then 1
    else
      ExtractedWords(content.value);
      CalculateReadingTime(ExtractText(content.value))
  }
}
