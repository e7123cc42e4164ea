/** Normalization in terms of words: what it keeps of a text, of a value and of a node. */
module Whitespace {
  import opened Ordering
  import opened Trees
  import opened Normalization

  // ---------------------------------------------------------------- words

  function FirstWord(sp: Spaces, s: string): (w: string)
    ensures w <= s && (s != [] && !sp(s[0]) ==> w != [])
  {
    if s == [] || sp(s[0]) then [] else [s[0]] + FirstWord(sp, s[1..])
  }

  /** The longest stretches without whitespace, in order. */
  function WordsOf(sp: Spaces, s: string): seq<string>
    decreases |s|
  {
    if s == [] then []
    else if sp(s[0]) then WordsOf(sp, s[1..])
    else
      var w := FirstWord(sp, s);
      [w] + WordsOf(sp, s[|w|..])
  }

  function JoinWords(words: seq<string>): string
  {
    if words == [] then "" else if |words| == 1 then words[0] else words[0] + " " + JoinWords(words[1..])
  }

  lemma {:induction false} WordsSkipSpaces(sp: Spaces, s: string)
    ensures WordsOf(sp, DropSpaces(sp, s)) == WordsOf(sp, s)
  {
    if s != [] && sp(s[0]) { WordsSkipSpaces(sp, s[1..]); }
  }

  lemma {:induction false} CollapseKeepsWord(sp: Spaces, s: string)
    ensures Collapse(sp, s) == FirstWord(sp, s) + Collapse(sp, s[|FirstWord(sp, s)|..])
    ensures var rest := s[|FirstWord(sp, s)|..];
      rest != [] ==> sp(rest[0])
  {
    if s != [] && !sp(s[0]) {
      CollapseKeepsWord(sp, s[1..]);
      assert s[1..][|FirstWord(sp, s[1..])|..] == s[|FirstWord(sp, s)|..];
    } else {
      assert s[0..] == s;
    }
  }

  /** The blank that trailing whitespace leaves behind. */
  function Tail(sp: Spaces, s: string): string
  {
    if s != [] && sp(s[|s| - 1]) then " " else ""
  }

  lemma {:induction false} DropSpacesToEnd(sp: Spaces, s: string)
    ensures DropSpaces(sp, s) == [] ==> forall i :: 0 <= i < |s| ==> sp(s[i])
    ensures DropSpaces(sp, s) != [] ==> DropSpaces(sp, s)[|DropSpaces(sp, s)| - 1] == s[|s| - 1]
  {
    if s != [] && sp(s[0]) { DropSpacesToEnd(sp, s[1..]); }
  }

  lemma {:induction false} WordsNonEmpty(sp: Spaces, s: string)
    requires s != [] && !sp(s[0])
    ensures WordsOf(sp, s) != []
  {
  }

  lemma PrependWord(w: string, words: seq<string>)
    ensures JoinWords([w] + words) == if words == [] then w else w + " " + JoinWords(words)
  {
    assert ([w] + words)[1..] == words;
  }

  lemma Glue(whole: string, rest: string, next: string, w: string, joined: string, tail: string)
    requires whole == w + rest && rest == " " + next && next == joined + tail
    ensures whole == (w + " " + joined) + tail
  {
  }

  /** From a first character that is no whitespace on, collapsing joins the words. */
  lemma {:induction false} CollapseJoins(sp: Spaces, s: string)
    requires s != [] && !sp(s[0])
    ensures Collapse(sp, s) == JoinWords(WordsOf(sp, s)) + Tail(sp, s)
    decreases |s|, 1
  {
    var w := FirstWord(sp, s);
    var rest := s[|w|..];
    CollapseKeepsWord(sp, s);
    WordIsInk(sp, s);
    if rest == [] {
      assert s == w && WordsOf(sp, s) == [w];
    } else {
      CollapseJoinsRest(sp, s, w, rest);
    }
  }

  lemma {:induction false} CollapseJoinsRest(sp: Spaces, s: string, w: string, rest: string)
    requires s != [] && !sp(s[0]) && w == FirstWord(sp, s) && rest == s[|w|..] && rest != [] && sp(rest[0])
    requires Collapse(sp, s) == w + Collapse(sp, rest)
    ensures Collapse(sp, s) == JoinWords(WordsOf(sp, s)) + Tail(sp, s)
    decreases |s|, 0
  {
    var next := DropSpaces(sp, rest);
    WordsStep(sp, s, w, rest, next);
    CollapseStep(sp, rest);
    TailStep(sp, s, rest);
    if next != [] {
      CollapseJoins(sp, next);
      WordsNonEmpty(sp, next);
      Glue(Collapse(sp, s), Collapse(sp, rest), Collapse(sp, next), w, JoinWords(WordsOf(sp, next)), Tail(sp, next));
    }
  }

  lemma WordsStep(sp: Spaces, s: string, w: string, rest: string, next: string)
    requires s != [] && !sp(s[0]) && w == FirstWord(sp, s) && rest == s[|w|..] && next == DropSpaces(sp, rest)
    ensures JoinWords(WordsOf(sp, s)) == if WordsOf(sp, next) == [] then w else w + " " + JoinWords(WordsOf(sp, next))
    ensures next == [] ==> WordsOf(sp, next) == []
  {
    WordsSkipSpaces(sp, rest);
    PrependWord(w, WordsOf(sp, rest));
  }

  lemma CollapseStep(sp: Spaces, rest: string)
    requires rest != [] && sp(rest[0])
    ensures Collapse(sp, rest) == " " + Collapse(sp, DropSpaces(sp, rest))
    ensures DropSpaces(sp, rest) == [] ==> Collapse(sp, rest) == " "
  {
  }

  lemma TailStep(sp: Spaces, s: string, rest: string)
    requires rest != [] && |rest| <= |s| && rest == s[|s| - |rest|..]
    ensures Tail(sp, s) == if DropSpaces(sp, rest) == [] then " " else Tail(sp, DropSpaces(sp, rest))
  {
    DropSpacesToEnd(sp, rest);
  }

  lemma {:induction false} WordIsInk(sp: Spaces, s: string)
    ensures forall i :: 0 <= i < |FirstWord(sp, s)| ==> !sp(FirstWord(sp, s)[i])
  {
    if s != [] && !sp(s[0]) { WordIsInk(sp, s[1..]); }
  }

  /** The text of joined words ends in a character that is no whitespace. */
  lemma {:induction false} JoinEndsInInk(sp: Spaces, s: string)
    ensures var j := JoinWords(WordsOf(sp, s));
      j == [] || !sp(j[|j| - 1])
    decreases |s|
  {
    if s != [] && sp(s[0]) {
      JoinEndsInInk(sp, s[1..]);
    } else if s != [] {
      var w := FirstWord(sp, s);
      WordIsInk(sp, s);
      JoinEndsInInk(sp, s[|w|..]);
      PrependWord(w, WordsOf(sp, s[|w|..]));
      JoinIsNonEmpty(sp, s[|w|..]);
    }
  }

  lemma {:induction false} JoinIsNonEmpty(sp: Spaces, s: string)
    ensures WordsOf(sp, s) != [] ==> JoinWords(WordsOf(sp, s)) != []
    decreases |s|
  {
    if s != [] && sp(s[0]) {
      JoinIsNonEmpty(sp, s[1..]);
    } else if s != [] {
      var w := FirstWord(sp, s);
      PrependWord(w, WordsOf(sp, s[|w|..]));
    }
  }

  lemma CollapseThenDrop(sp: Spaces, s: string)
    requires sp(' ')
    ensures DropSpaces(sp, Collapse(sp, s)) == Collapse(sp, DropSpaces(sp, s))
  {
    var d := DropSpaces(sp, s);
    if s != [] && sp(s[0]) {
      assert Collapse(sp, s)[1..] == Collapse(sp, d);
      if d != [] { assert Collapse(sp, d)[0] == d[0]; }
    }
  }

  lemma DropTail(sp: Spaces, j: string, s: string)
    requires sp(' ') && (j == [] || !sp(j[|j| - 1]))
    ensures DropSpacesAtEnd(sp, j + Tail(sp, s)) == j
  {
    if Tail(sp, s) == " " {
      DropBlank(sp, j, j + " ");
    } else {
      assert j + "" == j;
    }
  }

  lemma DropBlank(sp: Spaces, j: string, blanked: string)
    requires sp(' ') && (j == [] || !sp(j[|j| - 1])) && blanked == j + " "
    ensures DropSpacesAtEnd(sp, blanked) == j
  {
    assert blanked[|blanked| - 1] == ' ' && blanked[..|blanked| - 1] == j;
    assert DropSpacesAtEnd(sp, blanked) == DropSpacesAtEnd(sp, j);
  }

  /** Normalized text is the words of the text with one blank between them. */
  lemma NormalizedIsWords(sp: Spaces, s: string)
    requires sp(' ')
    ensures NormalizeText(sp, s) == JoinWords(WordsOf(sp, s))
  {
    var d := DropSpaces(sp, s);
    CollapseThenDrop(sp, s);
    WordsSkipSpaces(sp, s);
    if d != [] {
      CollapseJoins(sp, d);
      JoinEndsInInk(sp, d);
      DropTail(sp, JoinWords(WordsOf(sp, d)), d);
    }
  }

  // ---------------------------------------------------------------- values

  /** Strings at every depth are reduced to their words; everything else is as it was. */
  ghost predicate Reduced(sp: Spaces, v: Value, w: Value)
    decreases v
  {
    match v
    case VStr(s) => w.VStr? && w.s == JoinWords(WordsOf(sp, s))
    case VList(items) =>
      w.VList? && |w.items| == |items| && forall k :: 0 <= k < |items| ==> Reduced(sp, items[k], w.items[k])
    case VDict(entries) =>
      w.VDict? && w.entries.Keys == entries.Keys &&
      forall key :: key in entries ==> Reduced(sp, entries[key], w.entries[key])
    case _ => w == v
  }

  lemma {:induction false} NormalizedIsReduced(sp: Spaces, v: Value)
    requires sp(' ')
    ensures Reduced(sp, v, NormalizeValue(sp, v))
  {
    match v
    case VStr(s) => NormalizedIsWords(sp, s);
    case VList(items) =>
      forall k | 0 <= k < |items|
        ensures Reduced(sp, items[k], NormalizeValue(sp, v).items[k])
      {
        NormalizedIsReduced(sp, items[k]);
      }
    case VDict(entries) =>
      forall key | key in entries
        ensures Reduced(sp, entries[key], NormalizeValue(sp, v).entries[key])
      {
        NormalizedIsReduced(sp, entries[key]);
      }
    case _ =>
  }

  // ---------------------------------------------------------------- nodes and the trace

  /** Content is rewritten under a key. */
  ghost predicate MayRewrite(z: Normalizer, key: string)
  {
    z.profile.collapseWhitespace && key !in z.profile.preserved
  }

  /** Only content changes: excluded keys go, keys that may be rewritten are reduced, the others stay. */
  lemma NodeIsReduced(z: Normalizer, n: Node)
    requires z.sp(' ')
    ensures z.NodeOf(n).(content := n.content) == n
    ensures z.NodeOf(n).content.Keys == n.content.Keys - z.profile.excluded
    ensures forall key :: key in n.content && key !in z.profile.excluded ==>
      if MayRewrite(z, key) then Reduced(z.sp, n.content[key], z.NodeOf(n).content[key])
      else z.NodeOf(n).content[key] == n.content[key]
  {
    forall key | key in n.content
      ensures Reduced(z.sp, n.content[key], NormalizeValue(z.sp, n.content[key]))
    {
      NormalizedIsReduced(z.sp, n.content[key]);
    }
  }

  lemma {:induction false} ReducedIsNormalized(sp: Spaces, v: Value, w: Value)
    requires sp(' ') && Reduced(sp, v, w)
    ensures w == NormalizeValue(sp, v)
  {
    match v
    case VStr(s) => NormalizedIsWords(sp, s);
    case VList(items) =>
      forall k | 0 <= k < |items|
        ensures w.items[k] == NormalizeValue(sp, items[k])
      {
        ReducedIsNormalized(sp, items[k], w.items[k]);
      }
      assert w.items == NormalizeValue(sp, v).items;
    case VDict(entries) =>
      forall key | key in entries
        ensures w.entries[key] == NormalizeValue(sp, entries[key])
      {
        ReducedIsNormalized(sp, entries[key], w.entries[key]);
      }
      assert w.entries == NormalizeValue(sp, v).entries;
    case _ =>
  }

  /**
   * A key is traced as excluded if it is, and as collapsed if it may be rewritten and some string in its
   * value is not its words with single blanks between them.
   */
  lemma TracedIff(z: Normalizer, t: Tree, trace: seq<TraceEntry>, n: NodeRef, key: string)
    requires z.sp(' ') && IsTrace(z, t, trace) && n in t.nodes && key in t.nodes[n].content
    ensures TraceEntry(n, key, ExcludeNonsemantic) in trace <==> key in z.profile.excluded
    ensures TraceEntry(n, key, CollapseWhitespace) in trace <==>
      key !in z.profile.excluded && MayRewrite(z, key) &&
      !Reduced(z.sp, t.nodes[n].content[key], t.nodes[n].content[key])
  {
    var v := t.nodes[n].content[key];
    NormalizedIsReduced(z.sp, v);
    if Reduced(z.sp, v, v) { ReducedIsNormalized(z.sp, v, v); }
  }
}
