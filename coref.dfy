/** Coreference rewriting bookkeeping. The neural coreference model is an oracle: its
    clusters (mention strings and character spans in the context-prefixed text) are
    parameters. What is modelled is everything around it: the span shift, the
    antecedent-aware tokenizer, sentence grouping with offsets re-based into the raw
    text, and the in-place rewriting of token texts. */
module Coref {
  import opened Wrappers
  import opened Text
  import opened Sentence

  /** A mention span `(start, end)` as the coreference model reports it. */
  datatype Span = Span(start: int, end: int)

  /** The clusters that survive the span adjustment: mention lists and span lists, aligned. */
  datatype Adjusted = Adjusted(mentions: seq<seq<string>>, spans: seq<seq<Span>>)

  // ---------------------------------------------------------------------------------
  // Context prefix and span adjustment
  // ---------------------------------------------------------------------------------

  /** The text put before the raw input: the context, a blank line, the context token, a space. */
  function Prefix(context: string, contextToken: string): (r: string)
    ensures |r| == |context| + |contextToken| + 3
  {
    context + "\n\n" + contextToken + " "
  }

  /** The spans of one cluster that start at or after `offset`, moved left by `offset`. */
  function ShiftSpans(spans: seq<Span>, offset: int): seq<Span> {
    if spans == [] then []
    else
      (if spans[0].start >= offset then [Span(spans[0].start - offset, spans[0].end - offset)] else [])
      + ShiftSpans(spans[1..], offset)
  }

  /** A span survives the shift exactly when it started inside the real text, and it then
      appears moved left by `offset`; the surviving spans keep their relative order. */
  lemma {:induction false} ShiftSpansExactly(spans: seq<Span>, offset: int, s: Span)
    ensures s in ShiftSpans(spans, offset) <==> s.start >= 0 && Span(s.start + offset, s.end + offset) in spans
    decreases |spans|
  {
    if spans != [] {
      ShiftSpansExactly(spans[1..], offset, s);
      assert spans == [spans[0]] + spans[1..];
    }
  }

  lemma {:induction false} ShiftSpansBounded(spans: seq<Span>, offset: int)
    ensures |ShiftSpans(spans, offset)| <= |spans|
    ensures forall s :: s in ShiftSpans(spans, offset) ==> s.start >= 0
    decreases |spans|
  {
    if spans != [] {
      ShiftSpansBounded(spans[1..], offset);
    }
  }

  /** The loop over `zip(clusters, clusters_spans)`: a cluster is kept, with its shifted
      spans, only when at least one of its spans survives. */
  function AdjustClusters(mentions: seq<seq<string>>, spans: seq<seq<Span>>, offset: int): (r: Adjusted)
    ensures |r.mentions| == |r.spans|
    decreases |mentions|
  {
    var n := if |mentions| < |spans| then |mentions| else |spans|;
    if n == 0 then Adjusted([], [])
    else
      var rest := AdjustClusters(mentions[..n - 1], spans[..n - 1], offset);
      var shifted := ShiftSpans(spans[n - 1], offset);
      if shifted != [] then Adjusted(rest.mentions + [mentions[n - 1]], rest.spans + [shifted])
      else rest
  }

  /** Indices, below `n`, of the clusters whose spans survive the shift, in increasing order. */
  function KeptClusters(spans: seq<seq<Span>>, n: nat, offset: int): (r: seq<nat>)
    requires n <= |spans|
    ensures forall j :: 0 <= j < |r| ==> r[j] < n
  {
    if n == 0 then []
    else KeptClusters(spans, n - 1, offset) + (if ShiftSpans(spans[n - 1], offset) != [] then [n - 1] else [])
  }

  function MinLen<T, U>(a: seq<T>, b: seq<U>): nat {
    if |a| < |b| then |a| else |b|
  }

  /** The adjusted lists are exactly the clusters with a surviving span, in their original
      order, each carrying its own mentions and its own shifted spans. */
  lemma {:induction false} AdjustClustersAligned(mentions: seq<seq<string>>, spans: seq<seq<Span>>, offset: int)
    ensures |AdjustClusters(mentions, spans, offset).spans| == |KeptClusters(spans, MinLen(mentions, spans), offset)|
    ensures var r := AdjustClusters(mentions, spans, offset);
      var kept := KeptClusters(spans, MinLen(mentions, spans), offset);
      forall j :: 0 <= j < |kept| ==>
        r.mentions[j] == mentions[kept[j]] && r.spans[j] == ShiftSpans(spans[kept[j]], offset) && r.spans[j] != []
    decreases |mentions|
  {
    var n := MinLen(mentions, spans);
    if n > 0 {
      var m', s' := mentions[..n - 1], spans[..n - 1];
      assert MinLen(m', s') == n - 1;
      AdjustClustersAligned(m', s', offset);
      KeptPrefix(spans, s', n - 1, offset);
      var rest := AdjustClusters(m', s', offset);
      var kept' := KeptClusters(spans, n - 1, offset);
      assert forall j :: 0 <= j < |kept'| ==> m'[kept'[j]] == mentions[kept'[j]] && s'[kept'[j]] == spans[kept'[j]];
    }
  }

  ghost predicate StrictlyIncreasing(s: seq<int>) {
    forall j, k :: 0 <= j < k < |s| ==> s[j] < s[k]
  }

  /** Adjusting the zip of two lists only looks at their common length. */
  lemma AdjustTruncated(mentions: seq<seq<string>>, spans: seq<seq<Span>>, offset: int)
    ensures AdjustClusters(mentions, spans, offset)
      == AdjustClusters(mentions[..MinLen(mentions, spans)], spans[..MinLen(mentions, spans)], offset)
  {
    var n := MinLen(mentions, spans);
    if n > 0 {
      assert mentions[..n][..n - 1] == mentions[..n - 1];
      assert spans[..n][..n - 1] == spans[..n - 1];
    }
  }

  /** The loop of `__call__` that shifts every cluster's spans by the prefix length and keeps
      the clusters with a surviving span. */
  method AdjustLoop(mentions: seq<seq<string>>, spans: seq<seq<Span>>, offset: int) returns (adjusted: Adjusted)
    ensures adjusted == AdjustClusters(mentions, spans, offset)
  {
    var keptMentions: seq<seq<string>> := [];
    var keptSpans: seq<seq<Span>> := [];
    var c := 0;
    while c < MinLen(mentions, spans)
      invariant c <= MinLen(mentions, spans)
      invariant Adjusted(keptMentions, keptSpans) == AdjustClusters(mentions[..c], spans[..c], offset)
    {
      assert mentions[..c + 1][..c] == mentions[..c];
      assert spans[..c + 1][..c] == spans[..c];
      var shifted := ShiftSpans(spans[c], offset);
      if shifted != [] {
        keptMentions := keptMentions + [mentions[c]];
        keptSpans := keptSpans + [shifted];
      }
      c := c + 1;
    }
    AdjustTruncated(mentions, spans, offset);
    adjusted := Adjusted(keptMentions, keptSpans);
  }

  /** Clusters keep their canonical mention through the adjustment. */
  lemma AdjustKeepsCanonical(mentions: seq<seq<string>>, spans: seq<seq<Span>>, offset: int)
    requires HasCanonical(mentions, spans)
    ensures HasCanonical(AdjustClusters(mentions, spans, offset).mentions, AdjustClusters(mentions, spans, offset).spans)
  {
    AdjustClustersAligned(mentions, spans, offset);
  }

  /** The kept indices increase. */
  lemma {:induction false} KeptClustersIncreasing(spans: seq<seq<Span>>, n: nat, offset: int)
    requires n <= |spans|
    ensures StrictlyIncreasing(KeptClusters(spans, n, offset))
    decreases n
  {
    if n > 0 {
      KeptClustersIncreasing(spans, n - 1, offset);
      var prev := KeptClusters(spans, n - 1, offset);
      var kept := KeptClusters(spans, n, offset);
      assert kept == prev + if ShiftSpans(spans[n - 1], offset) != [] then [n - 1] else [];
      forall j, k | 0 <= j < k < |kept|
        ensures kept[j] < kept[k]
      {
        assert kept[j] == prev[j] < n - 1;
        if k < |prev| {
          assert kept[k] == prev[k];
        }
      }
    }
  }

  /** Every cluster with a surviving span is among the kept ones. */
  lemma {:induction false} KeptClustersComplete(spans: seq<seq<Span>>, n: nat, offset: int)
    requires n <= |spans|
    ensures forall i :: 0 <= i < n && ShiftSpans(spans[i], offset) != [] ==> i in KeptClusters(spans, n, offset)
    decreases n
  {
    if n > 0 {
      KeptClustersComplete(spans, n - 1, offset);
      var prev := KeptClusters(spans, n - 1, offset);
      var kept := KeptClusters(spans, n, offset);
      assert forall i :: i in prev ==> i in kept;
    }
  }

  lemma {:induction false} KeptPrefix(spans: seq<seq<Span>>, spans': seq<seq<Span>>, n: nat, offset: int)
    requires n <= |spans'| && n <= |spans| && spans'[..n] == spans[..n]
    ensures KeptClusters(spans', n, offset) == KeptClusters(spans, n, offset)
    decreases n
  {
    if n > 0 {
      assert spans'[n - 1] == spans'[..n][n - 1];
      KeptPrefix(spans, spans', n - 1, offset);
    }
  }

  /** Mentions containing a space, cluster by cluster, followed by the system tokens. */
  function Antecedents(mentions: seq<seq<string>>, systemTokens: seq<string>): seq<string> {
    MultiWordMentions(mentions) + systemTokens
  }

  function MultiWordMentions(mentions: seq<seq<string>>): seq<string> {
    if mentions == [] then [] else SpacedOnly(mentions[0]) + MultiWordMentions(mentions[1..])
  }

  function SpacedOnly(cluster: seq<string>): seq<string> {
    if cluster == [] then []
    else (if ' ' in cluster[0] then [cluster[0]] else []) + SpacedOnly(cluster[1..])
  }

  /** A string is an antecedent exactly when it is a mention containing a space or a
      system token; the system tokens come last. */
  lemma AntecedentsExactly(mentions: seq<seq<string>>, systemTokens: seq<string>, a: string)
    ensures a in Antecedents(mentions, systemTokens) <==>
      (a in systemTokens || (' ' in a && exists i :: 0 <= i < |mentions| && a in mentions[i]))
    ensures Antecedents(mentions, systemTokens)[|Antecedents(mentions, systemTokens)| - |systemTokens|..] == systemTokens
  {
    MultiWordExactly(mentions, a);
  }

  lemma {:induction false} MultiWordExactly(mentions: seq<seq<string>>, a: string)
    ensures a in MultiWordMentions(mentions) <==> ' ' in a && exists i :: 0 <= i < |mentions| && a in mentions[i]
    decreases |mentions|
  {
    if mentions != [] {
      MultiWordExactly(mentions[1..], a);
      SpacedOnlyExactly(mentions[0], a);
      if ' ' in a && (exists i :: 0 <= i < |mentions| && a in mentions[i]) {
        var i :| 0 <= i < |mentions| && a in mentions[i];
        if i > 0 { assert a in mentions[1..][i - 1]; }
      }
      if ' ' in a && (exists i :: 0 <= i < |mentions[1..]| && a in mentions[1..][i]) {
        var i :| 0 <= i < |mentions[1..]| && a in mentions[1..][i];
        assert a in mentions[i + 1];
      }
    }
  }

  lemma {:induction false} SpacedOnlyExactly(cluster: seq<string>, a: string)
    ensures a in SpacedOnly(cluster) <==> ' ' in a && a in cluster
    decreases |cluster|
  {
    if cluster != [] {
      SpacedOnlyExactly(cluster[1..], a);
      assert cluster == [cluster[0]] + cluster[1..];
    }
  }

  // ---------------------------------------------------------------------------------
  // Antecedent-aware tokenizer: the pattern `(<antecedents>)|(\w+[^\w\s]*)|([^\w\s])`
  // ---------------------------------------------------------------------------------

  /** Characters `re.escape` prefixes with a backslash (Python 3.7 and later). */
  predicate IsRegexSpecial(c: char) {
    c in "()[]{}?*+-|^$\\.&~# \t\n\r\U{B}\U{C}"
  }

  /** Length of `re.escape(s)`. */
  function EscapedLength(s: string): nat {
    if s == [] then 0 else (if IsRegexSpecial(s[0]) then 2 else 1) + EscapedLength(s[1..])
  }

  lemma {:induction false} EscapedLengthConcat(a: string, b: string)
    ensures EscapedLength(a + b) == EscapedLength(a) + EscapedLength(b)
    ensures EscapedLength(b) >= |b|
    decreases |a| + |b|
  {
    if a != [] {
      assert (a + b)[1..] == a[1..] + b;
      EscapedLengthConcat(a[1..], b);
    } else if b != [] {
      assert a + b == b;
      EscapedLengthConcat([], b[1..]);
    }
  }

  /** Each element's escaped form is at least as long as the next one's. */
  predicate SortedByEscapedLength(s: seq<string>) {
    forall i :: 0 <= i < |s| - 1 ==> EscapedLength(s[i]) >= EscapedLength(s[i + 1])
  }

  /** `sorted(..., key=len, reverse=True)` over the escaped antecedents: a stable sort,
      longest escaped form first. */
  function OrderAntecedents(ants: seq<string>): (r: seq<string>)
    ensures multiset(r) == multiset(ants)
    ensures forall a :: a in r <==> a in ants
    ensures SortedByEscapedLength(r)
  {
    if ants == [] then []
    else
      assert ants == [ants[0]] + ants[1..];
      var r := InsertByEscapedLength(ants[0], OrderAntecedents(ants[1..]));
      assert forall a :: a in r <==> a in multiset(r);
      assert forall a :: a in ants <==> a in multiset(ants);
      r
  }

  function InsertByEscapedLength(a: string, sorted: seq<string>): (r: seq<string>)
    requires SortedByEscapedLength(sorted)
    ensures multiset(r) == multiset(sorted) + multiset{a}
    ensures SortedByEscapedLength(r)
    ensures r != [] && (r[0] == a || (sorted != [] && r[0] == sorted[0]))
  {
    if sorted == [] || EscapedLength(a) >= EscapedLength(sorted[0]) then [a] + sorted
    else
      var rest := InsertByEscapedLength(a, sorted[1..]);
      assert sorted == [sorted[0]] + sorted[1..];
      [sorted[0]] + rest
  }

  /** In a list sorted by escaped length, the head's escaped form is the longest. */
  lemma {:induction false} SortedHeadIsLongest(s: seq<string>, k: nat)
    requires SortedByEscapedLength(s) && k < |s|
    ensures EscapedLength(s[0]) >= EscapedLength(s[k])
    decreases k
  {
    if k > 0 {
      SortedHeadIsLongest(s[1..], k - 1);
    }
  }

  /** `a` is a prefix of `text[p..]`: the literal alternative for `a` matches at `p`. */
  predicate MatchesAt(text: string, p: nat, a: string) {
    p + |a| <= |text| && text[p..p + |a|] == a
  }

  /** The first alternative, in pattern order, among the antecedents that matches at `p`. */
  function FirstAntecedentAt(text: string, p: nat, ordered: seq<string>): (r: Option<string>)
    ensures r.Some? ==> r.value in ordered && MatchesAt(text, p, r.value)
    ensures r.None? ==> forall a :: a in ordered ==> !MatchesAt(text, p, a)
  {
    if ordered == [] then None
    else if MatchesAt(text, p, ordered[0]) then Some(ordered[0])
    else FirstAntecedentAt(text, p, ordered[1..])
  }

  /** The antecedent alternative picked at a position is the longest antecedent occurring
      there: of two antecedents that both match, one extends the other and so has the longer
      escaped form, which the descending order tries first. */
  lemma {:induction false} FirstAntecedentIsLongest(text: string, p: nat, ants: seq<string>, b: string)
    requires b in ants && MatchesAt(text, p, b)
    ensures FirstAntecedentAt(text, p, OrderAntecedents(ants)).Some?
    ensures |b| <= |FirstAntecedentAt(text, p, OrderAntecedents(ants)).value|
  {
    var ordered := OrderAntecedents(ants);
    assert b in multiset(ordered);
    FirstInSortedIsLongest(text, p, ordered, b);
  }

  lemma {:induction false} FirstInSortedIsLongest(text: string, p: nat, ordered: seq<string>, b: string)
    requires SortedByEscapedLength(ordered)
    requires b in ordered && MatchesAt(text, p, b)
    ensures FirstAntecedentAt(text, p, ordered).Some?
    ensures |b| <= |FirstAntecedentAt(text, p, ordered).value|
    decreases |ordered|
  {
    var a := ordered[0];
    if MatchesAt(text, p, a) {
      if |b| > |a| {
        assert b == a + b[|a|..] by {
          assert b[..|a|] == text[p..p + |a|];
        }
        EscapedLengthConcat(a, b[|a|..]);
        var k :| 0 <= k < |ordered| && ordered[k] == b;
        SortedHeadIsLongest(ordered, k);
        assert false;
      }
    } else {
      assert b != a;
      FirstInSortedIsLongest(text, p, ordered[1..], b);
    }
  }

  /** End of the maximal run, from `p`, of characters satisfying the word class (or not). */
  function RunEnd(text: string, p: nat, word: bool): (q: nat)
    requires p <= |text|
    ensures p <= q <= |text|
    ensures forall i :: p <= i < q ==> if word then IsWord(text[i]) else !IsWord(text[i]) && !IsSpace(text[i])
    ensures q < |text| ==> if word then !IsWord(text[q]) else IsWord(text[q]) || IsSpace(text[q])
    decreases |text| - p
  {
    if p == |text| then p
    else if (if word then IsWord(text[p]) else !IsWord(text[p]) && !IsSpace(text[p])) then RunEnd(text, p + 1, word)
    else p
  }

  /** End of the match the tokenizer pattern makes at `p`, if one starts there:
      an antecedent (in pattern order), else `\w+[^\w\s]*` (both runs greedy), else one `[^\w\s]`. */
  function MatchEnd(text: string, p: nat, ordered: seq<string>): (r: Option<nat>)
    requires p < |text|
    requires forall a :: a in ordered ==> a != []
    ensures r.Some? ==> p < r.value <= |text|
    ensures r.None? <==> IsSpace(text[p]) && FirstAntecedentAt(text, p, ordered).None?
  {
    match FirstAntecedentAt(text, p, ordered)
    case Some(a) => Some(p + |a|)
    case None =>
      if IsWord(text[p]) then Some(RunEnd(text, RunEnd(text, p, true), false))
      else if !IsSpace(text[p]) then Some(p + 1)
      else None
  }

  /** `finditer` from `pos`: the leftmost match, then the next search from its end. */
  function Scan(text: string, pos: nat, ordered: seq<string>): seq<TokenData>
    requires pos <= |text|
    requires forall a :: a in ordered ==> a != []
    decreases |text| - pos
  {
    if pos == |text| then []
    else match MatchEnd(text, pos, ordered)
      case Some(e) => [TokenData(text[pos..e], pos, e)] + Scan(text, e, ordered)
      case None => Scan(text, pos + 1, ordered)
  }

  /** Every token addresses the text it was cut from, tokens are non-empty, in increasing
      order and non-overlapping, and nothing but whitespace is left between them. */
  ghost predicate WellFormedTokens(text: string, from: nat, tokens: seq<TokenData>) {
    && (forall k :: 0 <= k < |tokens| ==>
          from <= tokens[k].start < tokens[k].end <= |text| && text[tokens[k].start..tokens[k].end] == tokens[k].text)
    && (forall k :: 0 <= k < |tokens| - 1 ==> tokens[k].end <= tokens[k + 1].start)
  }

  /** Position `q` lies inside one of the tokens. */
  ghost predicate Covered(tokens: seq<TokenData>, q: int) {
    exists k :: 0 <= k < |tokens| && tokens[k].start <= q < tokens[k].end
  }

  lemma ConsWellFormed(text: string, from: nat, t: TokenData, rest: seq<TokenData>)
    requires from <= t.start < t.end <= |text| && text[t.start..t.end] == t.text
    requires WellFormedTokens(text, t.end, rest)
    ensures WellFormedTokens(text, from, [t] + rest)
  {
    var tokens := [t] + rest;
    forall k | 0 <= k < |tokens| - 1
      ensures tokens[k].end <= tokens[k + 1].start
    {
      assert tokens[k + 1] == rest[k];
      if k > 0 {
        assert tokens[k] == rest[k - 1];
      }
    }
  }

  lemma {:induction false} ScanWellFormed(text: string, pos: nat, ordered: seq<string>)
    requires pos <= |text|
    requires forall a :: a in ordered ==> a != []
    ensures WellFormedTokens(text, pos, Scan(text, pos, ordered))
    decreases |text| - pos
  {
    if pos < |text| {
      match MatchEnd(text, pos, ordered)
      case Some(e) =>
        assert Scan(text, pos, ordered) == [TokenData(text[pos..e], pos, e)] + Scan(text, e, ordered);
        ScanWellFormed(text, e, ordered);
        ConsWellFormed(text, pos, TokenData(text[pos..e], pos, e), Scan(text, e, ordered));
      case None =>
        ScanWellFormed(text, pos + 1, ordered);
    }
  }

  /** Only whitespace is skipped: every other character lies inside some token. */
  lemma {:induction false} ScanCoversNonSpace(text: string, pos: nat, ordered: seq<string>)
    requires pos <= |text|
    requires forall a :: a in ordered ==> a != []
    ensures forall q :: pos <= q < |text| && !IsSpace(text[q]) ==> Covered(Scan(text, pos, ordered), q)
    decreases |text| - pos
  {
    if pos < |text| {
      var tokens := Scan(text, pos, ordered);
      match MatchEnd(text, pos, ordered)
      case Some(e) =>
        ScanCoversNonSpace(text, e, ordered);
        var rest := Scan(text, e, ordered);
        assert tokens == [TokenData(text[pos..e], pos, e)] + rest;
        forall q | pos <= q < |text| && !IsSpace(text[q])
          ensures Covered(tokens, q)
        {
          if q < e {
            assert tokens[0].start <= q < tokens[0].end;
          } else {
            var k :| 0 <= k < |rest| && rest[k].start <= q < rest[k].end;
            assert tokens[k + 1] == rest[k];
          }
        }
      case None =>
        ScanCoversNonSpace(text, pos + 1, ordered);
    }
  }

  /** No token object occurs twice in the list. */
  ghost predicate Distinct(tokens: seq<Token>) {
    forall i, j :: 0 <= i < j < |tokens| ==> tokens[i] != tokens[j]
  }

  lemma DistinctSnoc(tokens: seq<Token>, t: Token)
    requires Distinct(tokens) && t !in tokens
    ensures Distinct(tokens + [t])
  {
  }

  /** The loop of `_tokenize_text_with_antecedents` over the matches `finditer` yields
      (`Scan`): one new `Token` per match, with the match's text and span. */
  method ScanTokens(text: string, ordered: seq<string>) returns (tokens: seq<Token>)
    requires forall a :: a in ordered ==> a != []
    ensures Holds(tokens, Scan(text, 0, ordered))
    ensures forall i :: 0 <= i < |tokens| ==> fresh(tokens[i])
    ensures Distinct(tokens)
  {
    var matches := Scan(text, 0, ordered);
    tokens := [];
    var i := 0;
    while i < |matches|
      invariant i <= |matches|
      invariant |tokens| == i && forall k :: 0 <= k < i ==> tokens[k].Data() == matches[k]
      invariant forall k :: 0 <= k < i ==> fresh(tokens[k])
      invariant Distinct(tokens)
    {
      var t := new Token(matches[i].text, matches[i].start, matches[i].end);
      DistinctSnoc(tokens, t);
      tokens := tokens + [t];
      i := i + 1;
    }
  }

  /** `_tokenize_text_with_antecedents`: the pattern tries the antecedents longest escaped
      form first, then words and punctuation. Antecedents must be non-empty (see README,
      "Left out"). */
  method TokenizeWithAntecedents(text: string, antecedents: seq<string>) returns (tokens: seq<Token>)
    requires forall a :: a in antecedents ==> a != []
    ensures Holds(tokens, Scan(text, 0, OrderAntecedents(antecedents)))
    ensures forall i :: 0 <= i < |tokens| ==> fresh(tokens[i])
    ensures Distinct(tokens)
  {
    var ordered := OrderAntecedents(antecedents);
    tokens := ScanTokens(text, ordered);
  }

  // ---------------------------------------------------------------------------------
  // Sentence splitting: the splitter `(?<!\w\.\w.)(?<![A-Z][a-z]\.)(?<=[.?])\s`
  // ---------------------------------------------------------------------------------

  /** The splitter matches the single whitespace character at `p`: it follows `.` or `?`,
      the four characters before it are not word, `.`, word, non-newline (as in "e.g. "),
      and the three before it are not an upper-case letter, a lower-case letter and `.`
      (as in "Mr. "). */
  predicate IsSplitAt(text: string, p: nat)
    requires p < |text|
  {
    && IsSpace(text[p])
    && p >= 1 && (text[p - 1] == '.' || text[p - 1] == '?')
    && !(p >= 4 && IsWord(text[p - 4]) && text[p - 3] == '.' && IsWord(text[p - 2]) && text[p - 1] != '\n')
    && !(p >= 3 && IsAsciiUpper(text[p - 3]) && IsAsciiLower(text[p - 2]) && text[p - 1] == '.')
  }

  /** Split positions are below `n`, each greater than the one before. */
  predicate IsSplitList(splits: seq<nat>, n: nat) {
    && (forall k :: 0 <= k < |splits| ==> splits[k] < n)
    && (forall k :: 0 < k < |splits| ==> splits[k - 1] < splits[k])
  }

  /** `splitter.finditer(text)` from `from`: every match is one character, so the matches
      are the split positions, in increasing order. */
  function SplitPositions(text: string, from: nat): (r: seq<nat>)
    requires from <= |text|
    ensures IsSplitList(r, |text|)
    ensures forall k :: 0 <= k < |r| ==> from <= r[k]
    decreases |text| - from
  {
    if from == |text| then []
    else (if IsSplitAt(text, from) then [from] else []) + SplitPositions(text, from + 1)
  }

  /** Split positions are strictly increasing throughout, not only between neighbours. */
  lemma {:induction false} SplitListIncreasing(splits: seq<nat>, n: nat, k: nat, l: nat)
    requires IsSplitList(splits, n) && k < l < |splits|
    ensures splits[k] < splits[l]
    decreases l - k
  {
    if k + 1 < l {
      SplitListIncreasing(splits, n, k + 1, l);
    }
  }

  /** The split positions are exactly the places where the splitter matches. */
  lemma {:induction false} SplitPositionsExactly(text: string, from: nat, p: nat)
    requires from <= |text|
    ensures p in SplitPositions(text, from) <==> from <= p < |text| && IsSplitAt(text, p)
    decreases |text| - from
  {
    if from < |text| {
      SplitPositionsExactly(text, from + 1, p);
    }
  }

  /** A token value moved right by `d`. */
  function Shifted(t: TokenData, d: int): TokenData {
    TokenData(t.text, t.start + d, t.end + d)
  }

  /** Token values moved right by `d`. */
  function ShiftTokens(tokens: seq<TokenData>, d: int): (r: seq<TokenData>)
    ensures |r| == |tokens|
    ensures forall i :: 0 <= i < |tokens| ==> r[i] == Shifted(tokens[i], d)
  {
    seq(|tokens|, i requires 0 <= i < |tokens| => Shifted(tokens[i], d))
  }

  /** Where sentence `k` starts: just after the whitespace character of the previous split. */
  function SentenceStart(splits: seq<nat>, k: nat): nat
    requires k <= |splits|
  {
    if k == 0 then 0 else splits[k - 1] + 1
  }

  /** Where sentence `k` ends: just after its split's whitespace character; the tail sentence
      ends with the text. */
  function SentenceEnd(text: string, splits: seq<nat>, k: nat): nat
    requires k <= |splits|
  {
    if k < |splits| then splits[k] + 1 else |text|
  }

  /** The number of sentences: one per split, plus the tail when it is not empty. */
  function SentenceCount(text: string, splits: seq<nat>): nat {
    |splits| + (if SentenceStart(splits, |splits|) < |text| then 1 else 0)
  }

  /** The tokens of the sentence `text[from..to]`, as values with offsets into the whole text. */
  function SentenceValues(text: string, from: nat, to: nat, antecedents: seq<string>): seq<TokenData>
    requires from <= to <= |text|
    requires forall a :: a in antecedents ==> a != []
  {
    ShiftTokens(Scan(text[from..to], 0, OrderAntecedents(antecedents)), from)
  }

  /** The tokens of sentence `k`. */
  function SentenceTokens(text: string, splits: seq<nat>, k: nat, antecedents: seq<string>): seq<TokenData>
    requires IsSplitList(splits, |text|) && k <= |splits|
    requires forall a :: a in antecedents ==> a != []
  {
    SentenceValues(text, SentenceStart(splits, k), SentenceEnd(text, splits, k), antecedents)
  }

  /** The tokens of the first `n` sentences, group by group. */
  function FirstSentences(text: string, splits: seq<nat>, n: nat, antecedents: seq<string>): seq<seq<TokenData>>
    requires IsSplitList(splits, |text|) && n <= |splits| + 1
    requires forall a :: a in antecedents ==> a != []
  {
    seq(n, k requires 0 <= k < n => SentenceTokens(text, splits, k, antecedents))
  }

  /** The token groups `_tokenize_text_by_sentences` returns, as values. */
  function SentenceGroups(text: string, antecedents: seq<string>): seq<seq<TokenData>>
    requires forall a :: a in antecedents ==> a != []
  {
    var splits := SplitPositions(text, 0);
    FirstSentences(text, splits, SentenceCount(text, splits), antecedents)
  }

  /** The re-based offsets address the whole text: every token of the sentence
      `text[from..to]` lies inside it, reads in `text` at its offsets exactly its own text,
      and the tokens are ordered and do not overlap. */
  lemma SentenceValuesWellFormed(text: string, from: nat, to: nat, antecedents: seq<string>)
    requires from <= to <= |text|
    requires forall a :: a in antecedents ==> a != []
    ensures WellFormedTokens(text, from, SentenceValues(text, from, to, antecedents))
    ensures forall k :: 0 <= k < |SentenceValues(text, from, to, antecedents)| ==>
      SentenceValues(text, from, to, antecedents)[k].end <= to
  {
    var sentence := text[from..to];
    var ordered := OrderAntecedents(antecedents);
    var scanned := Scan(sentence, 0, ordered);
    ScanWellFormed(sentence, 0, ordered);
    var r := SentenceValues(text, from, to, antecedents);
    forall k | 0 <= k < |r|
      ensures from <= r[k].start < r[k].end <= to && text[r[k].start..r[k].end] == r[k].text
    {
      assert r[k] == Shifted(scanned[k], from);
      ShiftedInText(text, from, to, scanned[k]);
    }
    forall k | 0 <= k < |r| - 1
      ensures r[k].end <= r[k + 1].start
    {
      assert r[k] == Shifted(scanned[k], from) && r[k + 1] == Shifted(scanned[k + 1], from);
    }
  }

  /** A token of the sentence `text[from..to]`, moved by `from`, reads its text in `text`. */
  lemma ShiftedInText(text: string, from: nat, to: nat, d: TokenData)
    requires from <= to <= |text|
    requires 0 <= d.start < d.end <= to - from && text[from..to][d.start..d.end] == d.text
    ensures var r := Shifted(d, from); from <= r.start < r.end <= to && text[r.start..r.end] == r.text
  {
    SliceOfSlice(text, from, to, d.start, d.end);
  }

  lemma SliceOfSlice(s: string, from: nat, to: nat, i: nat, j: nat)
    requires from <= to <= |s| && i <= j <= to - from
    ensures s[from..to][i..j] == s[from + i..from + j]
  {
    forall k | 0 <= k < j - i
      ensures s[from..to][i..j][k] == s[from + i..from + j][k]
    {
    }
  }

  /** Sentence `k` ends where sentence `k + 1` starts. */
  lemma SentencesAdjacent(text: string, splits: seq<nat>, k: nat)
    requires IsSplitList(splits, |text|) && k < |splits|
    ensures SentenceStart(splits, k) <= SentenceEnd(text, splits, k) == SentenceStart(splits, k + 1)
  {
  }

  /** Every token of `a` ends before any token of `b` starts. */
  ghost predicate Precedes(a: seq<TokenData>, b: seq<TokenData>) {
    forall i, j :: 0 <= i < |a| && 0 <= j < |b| ==> a[i].end <= b[j].start
  }

  /** Every group of `_tokenize_text_by_sentences` addresses the whole text, and the groups
      follow one another: each token of a sentence ends before any token of the next starts. */
  lemma SentenceGroupsWellFormed(text: string, antecedents: seq<string>, h: nat)
    requires forall a :: a in antecedents ==> a != []
    requires h < |SentenceGroups(text, antecedents)|
    ensures WellFormedTokens(text, 0, SentenceGroups(text, antecedents)[h])
    ensures h + 1 < |SentenceGroups(text, antecedents)| ==>
      Precedes(SentenceGroups(text, antecedents)[h], SentenceGroups(text, antecedents)[h + 1])
  {
    var splits := SplitPositions(text, 0);
    var groups := SentenceGroups(text, antecedents);
    var from, to := SentenceStart(splits, h), SentenceEnd(text, splits, h);
    SentenceValuesWellFormed(text, from, to, antecedents);
    assert groups[h] == SentenceValues(text, from, to, antecedents);
    if h + 1 < |groups| {
      SentencesAdjacent(text, splits, h);
      SentenceValuesWellFormed(text, to, SentenceEnd(text, splits, h + 1), antecedents);
      assert groups[h + 1] == SentenceValues(text, to, SentenceEnd(text, splits, h + 1), antecedents);
    }
  }

  /** All token objects of a list of groups. */
  function AllTokens(groups: seq<seq<Token>>): set<Token> {
    set g, t | g in groups && t in g :: t
  }

  /** The groups' tokens currently hold, group by group, the values of `data`. */
  ghost predicate GroupsHold(groups: seq<seq<Token>>, data: seq<seq<TokenData>>)
    reads AllTokens(groups)
  {
    && |groups| == |data|
    && forall h :: 0 <= h < |groups| ==>
         assert forall t :: t in groups[h] ==> t in AllTokens(groups);
         Holds(groups[h], data[h])
  }

  /** No token object occurs twice anywhere in the groups. */
  ghost predicate DistinctTokens(groups: seq<seq<Token>>) {
    forall g, i, h, j ::
      0 <= g < |groups| && 0 <= i < |groups[g]| && 0 <= h < |groups| && 0 <= j < |groups[h]| && groups[g][i] == groups[h][j]
      ==> g == h && i == j
  }

  /** The loop that adds `last_split_position` to every token's `start` and `end`. */
  method ShiftOffsets(tokens: seq<Token>, d: int, ghost before: seq<TokenData>)
    requires Distinct(tokens) && Holds(tokens, before)
    modifies set t | t in tokens
    ensures Holds(tokens, ShiftTokens(before, d))
  {
    var i := 0;
    while i < |tokens|
      invariant 0 <= i <= |tokens|
      invariant forall k :: 0 <= k < i ==> tokens[k].Data() == Shifted(before[k], d)
      invariant forall k :: i <= k < |tokens| ==> tokens[k].Data() == before[k]
    {
      var t := tokens[i];
      t.start, t.end := t.start + d, t.end + d;
      i := i + 1;
    }
  }

  /** One sentence `text[from..to]`: its tokens, with offsets re-based onto `text`. */
  method TokenizeSentence(text: string, from: nat, to: nat, antecedents: seq<string>) returns (tokens: seq<Token>)
    requires from <= to <= |text|
    requires forall a :: a in antecedents ==> a != []
    ensures Holds(tokens, SentenceValues(text, from, to, antecedents))
    ensures forall i :: 0 <= i < |tokens| ==> fresh(tokens[i])
    ensures Distinct(tokens)
  {
    tokens := TokenizeWithAntecedents(text[from..to], antecedents);
    ShiftOffsets(tokens, from, Scan(text[from..to], 0, OrderAntecedents(antecedents)));
  }

  /** The groups built so far are the first sentences' tokens, and no token object repeats. */
  ghost predicate SentencesBuilt(groups: seq<seq<Token>>, text: string, splits: seq<nat>, antecedents: seq<string>)
    requires IsSplitList(splits, |text|) && |groups| <= |splits| + 1
    requires forall a :: a in antecedents ==> a != []
    reads *
  {
    && (forall h :: 0 <= h < |groups| ==>
          Holds(groups[h], SentenceTokens(text, splits, h, antecedents)))
    && DistinctTokens(groups)
  }

  /** Appends the tokens of the next sentence `text[from..to]` to the groups as one more group. */
  method AddSentence(groups: seq<seq<Token>>, text: string, from: nat, to: nat, antecedents: seq<string>, ghost splits: seq<nat>)
    returns (grown: seq<seq<Token>>)
    requires forall a :: a in antecedents ==> a != []
    requires IsSplitList(splits, |text|) && |groups| <= |splits|
    requires from == SentenceStart(splits, |groups|) && to == SentenceEnd(text, splits, |groups|)
    requires SentencesBuilt(groups, text, splits, antecedents)
    ensures |grown| == |groups| + 1
    ensures SentencesBuilt(grown, text, splits, antecedents)
    ensures forall h :: 0 <= h < |groups| ==> grown[h] == groups[h]
    ensures forall i :: 0 <= i < |grown[|groups|]| ==> fresh(grown[|groups|][i])
  {
    var tokens := TokenizeSentence(text, from, to, antecedents);
    AppendGroup(groups, tokens);
    grown := groups + [tokens];
    assert forall h :: 0 <= h < |groups| ==> grown[h] == groups[h];
  }

  /** The loop of `_tokenize_text_by_sentences` over the splitter's matches `splits`: one
      group per sentence `text[last : match.start() + 1]`; returns the groups and where the
      tail starts. */
  method TokenizeSplitSentences(text: string, splits: seq<nat>, antecedents: seq<string>)
    returns (groups: seq<seq<Token>>, last: nat)
    requires forall a :: a in antecedents ==> a != []
    requires IsSplitList(splits, |text|)
    ensures |groups| == |splits| && last == SentenceStart(splits, |splits|) <= |text|
    ensures SentencesBuilt(groups, text, splits, antecedents)
    ensures forall h, i :: 0 <= h < |groups| && 0 <= i < |groups[h]| ==> fresh(groups[h][i])
  {
    groups := [];
    last := 0;
    var k := 0;
    while k < |splits|
      invariant k == |groups| <= |splits| && last == SentenceStart(splits, k) <= |text|
      invariant SentencesBuilt(groups, text, splits, antecedents)
      invariant forall h, i :: 0 <= h < k && 0 <= i < |groups[h]| ==> fresh(groups[h][i])
    {
      var sentenceEnd := splits[k] + 1;
      groups := AddSentence(groups, text, last, sentenceEnd, antecedents, splits);
      last := sentenceEnd;
      k := k + 1;
    }
  }

  /** `_tokenize_text_by_sentences`: tokenizes each sentence and the remaining tail, each
      token's offsets re-based by its sentence's start. */
  method TokenizeBySentences(text: string, antecedents: seq<string>) returns (groups: seq<seq<Token>>)
    requires forall a :: a in antecedents ==> a != []
    ensures GroupsHold(groups, SentenceGroups(text, antecedents))
    ensures forall h, i :: 0 <= h < |groups| && 0 <= i < |groups[h]| ==> fresh(groups[h][i])
    ensures DistinctTokens(groups)
  {
    var splits := SplitPositions(text, 0);
    var last;
    groups, last := TokenizeSplitSentences(text, splits, antecedents);
    if last < |text| {
      groups := AddSentence(groups, text, last, |text|, antecedents, splits);
    }
  }

  /** Appending a group of new, distinct tokens keeps all tokens distinct. */
  lemma AppendGroup(groups: seq<seq<Token>>, tokens: seq<Token>)
    requires DistinctTokens(groups) && Distinct(tokens)
    requires forall g, i, j :: 0 <= g < |groups| && 0 <= i < |groups[g]| && 0 <= j < |tokens| ==> groups[g][i] != tokens[j]
    ensures DistinctTokens(groups + [tokens])
  {
    var gs := groups + [tokens];
    assert forall g :: 0 <= g < |groups| ==> gs[g] == groups[g];
    assert gs[|groups|] == tokens;
  }

  // ---------------------------------------------------------------------------------
  // Replacement of coreferent mentions by their cluster's canonical mention
  // ---------------------------------------------------------------------------------

  /** The start offsets of one cluster's spans. */
  function Starts(spans: seq<Span>): set<int> {
    set s | s in spans :: s.start
  }

  /** Every cluster of the zip has at least one mention, its canonical one. */
  predicate HasCanonical(mentions: seq<seq<string>>, spans: seq<seq<Span>>) {
    forall c :: 0 <= c < MinLen(mentions, spans) ==> mentions[c] != []
  }

  /** `for span in cluster_spans: start_position_to_canonical_mention[span[0]] = canonical`. */
  function PutStarts(m: map<int, string>, cluster: seq<Span>, canonical: string): (r: map<int, string>)
    ensures forall k :: k in r <==> k in m || k in Starts(cluster)
    ensures forall k :: k in Starts(cluster) ==> r[k] == canonical
    ensures forall k :: k in m && k !in Starts(cluster) ==> r[k] == m[k]
    decreases |cluster|
  {
    if cluster == [] then m
    else
      var init := cluster[..|cluster| - 1];
      assert cluster == init + [cluster[|cluster| - 1]];
      PutStarts(m, init, canonical)[cluster[|cluster| - 1].start := canonical]
  }

  /** `start_position_to_canonical_mention` after the first `n` clusters of the zip:
      each span start maps to its cluster's first mention, a later cluster overwriting. */
  function StartMap(mentions: seq<seq<string>>, spans: seq<seq<Span>>, n: nat): (r: map<int, string>)
    requires n <= MinLen(mentions, spans) && HasCanonical(mentions, spans)
    ensures Found(r, spans)
  {
    if n == 0 then map[]
    else PutStarts(StartMap(mentions, spans, n - 1), spans[n - 1], mentions[n - 1][0])
  }

  /** A start is a key exactly when some cluster has a span starting there. */
  lemma {:induction false} StartMapKeys(mentions: seq<seq<string>>, spans: seq<seq<Span>>, n: nat, k: int)
    requires n <= MinLen(mentions, spans) && HasCanonical(mentions, spans)
    ensures k in StartMap(mentions, spans, n) <==> exists c :: 0 <= c < n && k in Starts(spans[c])
    decreases n
  {
    if n > 0 {
      StartMapKeys(mentions, spans, n - 1, k);
      var prev := StartMap(mentions, spans, n - 1);
      assert StartMap(mentions, spans, n) == PutStarts(prev, spans[n - 1], mentions[n - 1][0]);
      if k in Starts(spans[n - 1]) {
        assert 0 <= n - 1 < n && k in Starts(spans[n - 1]);
      }
    }
  }

  /** A start maps to the canonical mention of the last cluster with a span starting there. */
  lemma {:induction false} StartMapLastWins(mentions: seq<seq<string>>, spans: seq<seq<Span>>, n: nat, k: int, c: nat)
    requires n <= MinLen(mentions, spans) && HasCanonical(mentions, spans)
    requires c < n && k in Starts(spans[c])
    requires forall d :: c < d < n ==> k !in Starts(spans[d])
    ensures k in StartMap(mentions, spans, n) && StartMap(mentions, spans, n)[k] == mentions[c][0]
    decreases n
  {
    var prev := StartMap(mentions, spans, n - 1);
    assert StartMap(mentions, spans, n) == PutStarts(prev, spans[n - 1], mentions[n - 1][0]);
    if c < n - 1 {
      StartMapLastWins(mentions, spans, n - 1, k, c);
      assert k !in Starts(spans[n - 1]);
    }
  }

  /** The loops that fill `start_position_to_canonical_mention`. */
  method BuildStartMap(mentions: seq<seq<string>>, spans: seq<seq<Span>>) returns (starts: map<int, string>)
    requires HasCanonical(mentions, spans)
    ensures starts == StartMap(mentions, spans, MinLen(mentions, spans))
  {
    starts := map[];
    var c := 0;
    while c < MinLen(mentions, spans)
      invariant c <= MinLen(mentions, spans)
      invariant starts == StartMap(mentions, spans, c)
    {
      var canonical := mentions[c][0];
      var cluster := spans[c];
      ghost var base := starts;
      var j := 0;
      while j < |cluster|
        invariant j <= |cluster|
        invariant starts == PutStarts(base, cluster[..j], canonical)
      {
        PutStartsSnoc(base, cluster, j, canonical);
        starts := starts[cluster[j].start := canonical];
        j := j + 1;
      }
      assert cluster[..j] == cluster;
      c := c + 1;
    }
  }

  /** One more span of the cluster maps its start to the canonical mention. */
  lemma PutStartsSnoc(m: map<int, string>, cluster: seq<Span>, j: nat, canonical: string)
    requires j < |cluster|
    ensures PutStarts(m, cluster[..j + 1], canonical) == PutStarts(m, cluster[..j], canonical)[cluster[j].start := canonical]
  {
    assert cluster[..j + 1][..j] == cluster[..j];
  }

  /** Index of the first span of a cluster starting at `start`. */
  function FirstIndexAt(spans: seq<Span>, start: int): (r: Option<nat>)
    ensures r.Some? ==> r.value < |spans| && spans[r.value].start == start
    ensures r.Some? ==> forall i :: 0 <= i < r.value ==> spans[i].start != start
    ensures r.None? <==> start !in Starts(spans)
    decreases |spans|
  {
    if spans == [] then None
    else if spans[0].start == start then Some(0)
    else match FirstIndexAt(spans[1..], start)
      case Some(i) => Some(i + 1)
      case None => None
  }

  /** `next(span for spans_list in ... for span in spans_list if span[0] == start)`: the first
      span starting at `start`, clusters in order, over all span lists (not only the zipped ones). */
  function FirstSpanAt(spans: seq<seq<Span>>, start: int): (r: Option<Span>)
    ensures r.None? <==> forall c :: 0 <= c < |spans| ==> start !in Starts(spans[c])
    ensures r.Some? ==> r.value.start == start
    decreases |spans|
  {
    if spans == [] then None
    else match FirstIndexAt(spans[0], start)
      case Some(i) => Some(spans[0][i])
      case None =>
        var r := FirstSpanAt(spans[1..], start);
        assert forall c :: 0 < c < |spans| ==> spans[c] == spans[1..][c - 1];
        r
  }

  /** The span `next` picks comes from the first cluster with a span starting there, and is
      that cluster's first such span. */
  lemma {:induction false} FirstSpanAtIsFirst(spans: seq<seq<Span>>, start: int)
    requires FirstSpanAt(spans, start).Some?
    ensures exists c :: (0 <= c < |spans| && FirstIndexAt(spans[c], start).Some?
      && FirstSpanAt(spans, start).value == spans[c][FirstIndexAt(spans[c], start).value]
      && forall d :: 0 <= d < c ==> start !in Starts(spans[d]))
    decreases |spans|
  {
    if FirstIndexAt(spans[0], start).None? {
      FirstSpanAtIsFirst(spans[1..], start);
      var c :| 0 <= c < |spans[1..]| && FirstIndexAt(spans[1..][c], start).Some?
        && FirstSpanAt(spans[1..], start).value == spans[1..][c][FirstIndexAt(spans[1..][c], start).value]
        && forall d :: 0 <= d < c ==> start !in Starts(spans[1..][d]);
      assert spans[1..][c] == spans[c + 1];
      forall d | 0 <= d < c + 1
        ensures start !in Starts(spans[d])
      {
        if d > 0 {
          assert spans[d] == spans[1..][d - 1];
        }
      }
    } else {
      assert 0 <= 0 < |spans|;
    }
  }

  /** Every key of `starts` has a span starting there, so `next` never runs dry. */
  predicate Found(starts: map<int, string>, spans: seq<seq<Span>>) {
    forall k :: k in starts ==> FirstSpanAt(spans, k).Some?
  }

  /** `token.text = canonical + token.text[span_len:]`, with Python's slice clamping. */
  function RewriteText(text: string, canonical: string, span: Span): string {
    canonical + After(text, span.end - span.start)
  }

  /** What follows the mention in the token (punctuation glued to it) is kept after the
      canonical mention; a token that is exactly the mention becomes the canonical mention. */
  lemma RewriteKeepsSuffix(mention: string, suffix: string, canonical: string, span: Span)
    requires span.end - span.start == |mention|
    ensures RewriteText(mention + suffix, canonical, span) == canonical + suffix
    ensures RewriteText(mention, canonical, span) == canonical
  {
    assert (mention + suffix)[|mention|..] == suffix;
  }

  /** One token after the replacement pass, as a value, given the start map. */
  function Replaced(d: TokenData, starts: map<int, string>, spans: seq<seq<Span>>): (r: TokenData)
    requires Found(starts, spans)
    ensures r.start == d.start && r.end == d.end
    ensures d.start !in starts ==> r == d
  {
    if d.start in starts then d.(text := RewriteText(d.text, starts[d.start], FirstSpanAt(spans, d.start).value))
    else d
  }

  /** A sentence's tokens after the replacement pass, as values. */
  function ReplacedAll(tokens: seq<TokenData>, starts: map<int, string>, spans: seq<seq<Span>>): (r: seq<TokenData>)
    requires Found(starts, spans)
    ensures |r| == |tokens|
    ensures forall i :: 0 <= i < |tokens| ==> r[i] == Replaced(tokens[i], starts, spans)
  {
    seq(|tokens|, i requires 0 <= i < |tokens| => Replaced(tokens[i], starts, spans))
  }

  /** The inner loop of `_replace_coreference_by_spans`, over one sentence's tokens. */
  method ReplaceInSentence(tokens: seq<Token>, starts: map<int, string>, spans: seq<seq<Span>>, ghost before: seq<TokenData>)
    requires Found(starts, spans)
    requires Distinct(tokens) && Holds(tokens, before)
    modifies set t | t in tokens
    ensures Holds(tokens, ReplacedAll(before, starts, spans))
  {
    var i := 0;
    while i < |tokens|
      invariant 0 <= i <= |tokens|
      invariant forall k :: 0 <= k < i ==> tokens[k].Data() == Replaced(before[k], starts, spans)
      invariant forall k :: i <= k < |tokens| ==> tokens[k].Data() == before[k]
    {
      var t := tokens[i];
      if t.start in starts {
        var canonical := starts[t.start];
        var span := FirstSpanAt(spans, t.start).value;
        var length := span.end - span.start;
        t.text := canonical + After(t.text, length);
      }
      assert t.Data() == Replaced(before[i], starts, spans);
      i := i + 1;
    }
  }

  /** `_replace_coreference_by_spans`: rewrites, in place, every token that starts where a
      coreferent mention starts; returns the same groups. */
  method ReplaceCoreferenceBySpans(groups: seq<seq<Token>>, mentions: seq<seq<string>>, spans: seq<seq<Span>>,
                                   ghost before: seq<seq<TokenData>>)
    returns (replaced: seq<seq<Token>>)
    requires HasCanonical(mentions, spans)
    requires DistinctTokens(groups) && GroupsHold(groups, before)
    modifies AllTokens(groups)
    ensures replaced == groups
    ensures |before| == |groups|
    ensures forall h :: 0 <= h < |groups| ==>
      Holds(groups[h], ReplacedAll(before[h], StartMap(mentions, spans, MinLen(mentions, spans)), spans))
  {
    var starts := BuildStartMap(mentions, spans);
    var h := 0;
    while h < |groups|
      invariant h <= |groups| == |before|
      invariant forall g :: 0 <= g < h ==> Holds(groups[g], ReplacedAll(before[g], starts, spans))
      invariant forall g :: h <= g < |groups| ==> Holds(groups[g], before[g])
    {
      ApartGroups(groups, h);
      ReplaceInSentence(groups[h], starts, spans, before[h]);
      h := h + 1;
    }
    replaced := groups;
  }

  /** Tokens of other groups are not tokens of group `h`. */
  lemma ApartGroups(groups: seq<seq<Token>>, h: nat)
    requires DistinctTokens(groups) && h < |groups|
    ensures Distinct(groups[h])
    ensures forall g, i :: 0 <= g < |groups| && g != h && 0 <= i < |groups[g]| ==> groups[g][i] !in groups[h]
    ensures (set t | t in groups[h]) <= AllTokens(groups)
  {
  }

  // ---------------------------------------------------------------------------------
  // The resolver
  // ---------------------------------------------------------------------------------

  /** Antecedents are never empty when the system tokens are not: the mentions among them
      contain a space. */
  lemma AntecedentsNonEmpty(mentions: seq<seq<string>>, systemTokens: seq<string>)
    requires forall a :: a in systemTokens ==> a != []
    ensures forall a :: a in Antecedents(mentions, systemTokens) ==> a != []
  {
    forall a | a in Antecedents(mentions, systemTokens)
      ensures a != []
    {
      AntecedentsExactly(mentions, systemTokens, a);
    }
  }

  /** The antecedents `__call__` tokenizes around: the multi-word mentions of the clusters
      that survive the shift by the prefix length, then the system tokens. */
  function CallAntecedents(context: string, contextToken: string, systemTokens: seq<string>,
                           clusters: seq<seq<string>>, clusterSpans: seq<seq<Span>>): (r: seq<string>)
    requires forall a :: a in systemTokens ==> a != []
    ensures forall a :: a in r ==> a != []
  {
    var adjusted := AdjustClusters(clusters, clusterSpans, |Prefix(context, contextToken)|);
    AntecedentsNonEmpty(adjusted.mentions, systemTokens);
    Antecedents(adjusted.mentions, systemTokens)
  }

  /** The clusters of the model's prediction that survive the shift by the prefix length. */
  function AdjustedFor(context: string, contextToken: string, clusters: seq<seq<string>>, clusterSpans: seq<seq<Span>>): Adjusted {
    AdjustClusters(clusters, clusterSpans, |Prefix(context, contextToken)|)
  }

  /** The token groups of the raw text before any rewriting. */
  function Tokenized(text: string, context: string, contextToken: string, systemTokens: seq<string>,
                     clusters: seq<seq<string>>, clusterSpans: seq<seq<Span>>): seq<seq<TokenData>>
    requires forall a :: a in systemTokens ==> a != []
  {
    SentenceGroups(text, CallAntecedents(context, contextToken, systemTokens, clusters, clusterSpans))
  }

  /** The sentences' tokens `__call__` hands to `SentenceProposal`, as values: the raw text
      is tokenized by sentences around the antecedents, then rewritten to canonical mentions.
      `clusters`/`clusterSpans` are the model's prediction on the prefixed text. */
  function Resolution(text: string, context: string, contextToken: string, systemTokens: seq<string>,
                      clusters: seq<seq<string>>, clusterSpans: seq<seq<Span>>): (r: seq<seq<TokenData>>)
    requires forall a :: a in systemTokens ==> a != []
    requires HasCanonical(clusters, clusterSpans)
  {
    var adjusted := AdjustedFor(context, contextToken, clusters, clusterSpans);
    AdjustKeepsCanonical(clusters, clusterSpans, |Prefix(context, contextToken)|);
    var starts := StartMap(adjusted.mentions, adjusted.spans, MinLen(adjusted.mentions, adjusted.spans));
    var groups := Tokenized(text, context, contextToken, systemTokens, clusters, clusterSpans);
    seq(|groups|, h requires 0 <= h < |groups| => ReplacedAll(groups[h], starts, adjusted.spans))
  }

  /** The rewriting keeps the sentence grouping and every token's offsets. */
  lemma ResolutionKeepsOffsets(text: string, context: string, contextToken: string, systemTokens: seq<string>,
                               clusters: seq<seq<string>>, clusterSpans: seq<seq<Span>>, h: nat, i: nat)
    requires forall a :: a in systemTokens ==> a != []
    requires HasCanonical(clusters, clusterSpans)
    requires h < |Tokenized(text, context, contextToken, systemTokens, clusters, clusterSpans)|
    requires i < |Tokenized(text, context, contextToken, systemTokens, clusters, clusterSpans)[h]|
    ensures |Resolution(text, context, contextToken, systemTokens, clusters, clusterSpans)|
      == |Tokenized(text, context, contextToken, systemTokens, clusters, clusterSpans)|
    ensures |Resolution(text, context, contextToken, systemTokens, clusters, clusterSpans)[h]|
      == |Tokenized(text, context, contextToken, systemTokens, clusters, clusterSpans)[h]|
    ensures Resolution(text, context, contextToken, systemTokens, clusters, clusterSpans)[h][i].start
      == Tokenized(text, context, contextToken, systemTokens, clusters, clusterSpans)[h][i].start
    ensures Resolution(text, context, contextToken, systemTokens, clusters, clusterSpans)[h][i].end
      == Tokenized(text, context, contextToken, systemTokens, clusters, clusterSpans)[h][i].end
  {
  }

  /** Only tokens starting where a surviving span starts are rewritten. */
  lemma ResolutionRewritesOnlyMentions(text: string, context: string, contextToken: string, systemTokens: seq<string>,
                                       clusters: seq<seq<string>>, clusterSpans: seq<seq<Span>>, h: nat, i: nat)
    requires forall a :: a in systemTokens ==> a != []
    requires HasCanonical(clusters, clusterSpans)
    requires h < |Tokenized(text, context, contextToken, systemTokens, clusters, clusterSpans)|
    requires i < |Tokenized(text, context, contextToken, systemTokens, clusters, clusterSpans)[h]|
    requires forall c :: 0 <= c < |AdjustedFor(context, contextToken, clusters, clusterSpans).spans| ==>
      Tokenized(text, context, contextToken, systemTokens, clusters, clusterSpans)[h][i].start
        !in Starts(AdjustedFor(context, contextToken, clusters, clusterSpans).spans[c])
    ensures Resolution(text, context, contextToken, systemTokens, clusters, clusterSpans)[h][i]
      == Tokenized(text, context, contextToken, systemTokens, clusters, clusterSpans)[h][i]
  {
    var adjusted := AdjustedFor(context, contextToken, clusters, clusterSpans);
    AdjustKeepsCanonical(clusters, clusterSpans, |Prefix(context, contextToken)|);
    var d := Tokenized(text, context, contextToken, systemTokens, clusters, clusterSpans)[h][i];
    StartMapKeys(adjusted.mentions, adjusted.spans, MinLen(adjusted.mentions, adjusted.spans), d.start);
  }

  /** With no cluster predicted, every sentence comes out exactly as tokenized, around the
      system tokens alone. */
  lemma ResolutionWithoutClusters(text: string, context: string, contextToken: string, systemTokens: seq<string>)
    requires forall a :: a in systemTokens ==> a != []
    ensures Resolution(text, context, contextToken, systemTokens, [], []) == SentenceGroups(text, systemTokens)
  {
    var groups := SentenceGroups(text, systemTokens);
    var adjusted := AdjustedFor(context, contextToken, [], []);
    NoClusters(context, contextToken, systemTokens);
    assert Tokenized(text, context, contextToken, systemTokens, [], []) == groups;
    assert StartMap(adjusted.mentions, adjusted.spans, 0) == map[];
    var r := Resolution(text, context, contextToken, systemTokens, [], []);
    assert |r| == |groups|;
    forall h | 0 <= h < |groups|
      ensures r[h] == groups[h]
    {
      ReplacedAllNoStarts(groups[h], adjusted.spans);
    }
  }

  /** No predicted cluster leaves nothing to adjust, and only the system tokens to keep whole. */
  lemma NoClusters(context: string, contextToken: string, systemTokens: seq<string>)
    requires forall a :: a in systemTokens ==> a != []
    ensures AdjustedFor(context, contextToken, [], []) == Adjusted([], [])
    ensures CallAntecedents(context, contextToken, systemTokens, [], []) == systemTokens
  {
    assert [] + systemTokens == systemTokens;
  }

  /** With no span start to rewrite at, every token is kept. */
  lemma ReplacedAllNoStarts(tokens: seq<TokenData>, spans: seq<seq<Span>>)
    ensures ReplacedAll(tokens, map[], spans) == tokens
  {
  }

  /** The list comprehension of `__call__` over `enumerate(...)`: one `SentenceProposal` per
      group, numbered from 0. */
  method MakeProposals(groups: seq<seq<Token>>, ghost data: seq<seq<TokenData>>) returns (proposals: seq<SentenceProposal>)
    requires |data| == |groups| && forall h :: 0 <= h < |groups| ==> Holds(groups[h], data[h])
    ensures |proposals| == |groups|
    ensures forall h :: 0 <= h < |groups| ==>
      proposals[h].index == h && Holds(proposals[h].tokens, data[h]) && proposals[h].text == JoinTokens(Texts(data[h]))
  {
    proposals := [];
    var i := 0;
    while i < |groups|
      invariant i <= |groups| && |proposals| == i
      invariant forall h :: 0 <= h < |groups| ==> Holds(groups[h], data[h])
      invariant forall h :: 0 <= h < i ==>
        proposals[h].index == h && proposals[h].tokens == groups[h] && proposals[h].text == JoinTokens(Texts(data[h]))
    {
      HoldsTexts(groups[i], data[i]);
      var proposal := new SentenceProposal(groups[i], i);
      proposals := proposals + [proposal];
      i := i + 1;
    }
  }

  /** `CorefResolver`: the coreference model behind it is an oracle whose prediction is passed
      to `Call`. The system tokens are fixed at construction from the initial context token;
      `SetContextToken` changes only the prefix. `device` is the attribute the model interface
      sets at construction, `modelDevice` where the model's weights are, and `movedTo` the
      `_device` attribute that only `to` sets. */
  class CorefResolver {
    var context: string
    var contextToken: string
    const systemTokens: seq<string>
    const device: string
    var modelDevice: string
    var movedTo: Option<string>

    constructor (contextToken: string, device: string)
      ensures this.context == [] && this.contextToken == contextToken && this.device == device
      ensures systemTokens == [contextToken] && modelDevice == device && movedTo == None
    {
      this.context := [];
      this.contextToken := contextToken;
      this.systemTokens := [contextToken];
      this.device := device;
      this.modelDevice := device;
      this.movedTo := None;
    }

    method SetContext(context: string)
      modifies this
      ensures this.context == context && contextToken == old(contextToken)
      ensures modelDevice == old(modelDevice) && movedTo == old(movedTo)
    {
      this.context := context;
    }

    method SetContextToken(contextToken: string)
      modifies this
      ensures this.contextToken == contextToken && context == old(context)
      ensures modelDevice == old(modelDevice) && movedTo == old(movedTo)
    {
      this.contextToken := contextToken;
    }

    /** `to`: moves the model, records the device under `_device` (the interface's `device`
        attribute keeps its value) and returns the resolver itself. */
    method To(device: string) returns (self: CorefResolver)
      modifies this
      ensures self == this
      ensures modelDevice == device && movedTo == Some(device)
      ensures context == old(context) && contextToken == old(contextToken)
    {
      this.movedTo := Some(device);
      this.modelDevice := device;
      self := this;
    }

    /** `__call__`: one `SentenceProposal` per sentence of `text`, numbered from 0, built from
        the sentence's tokens after the canonical-mention rewriting. */
    method Call(text: string, clusters: seq<seq<string>>, clusterSpans: seq<seq<Span>>) returns (proposals: seq<SentenceProposal>)
      requires forall a :: a in systemTokens ==> a != []
      requires HasCanonical(clusters, clusterSpans)
      ensures var r := Resolution(text, context, contextToken, systemTokens, clusters, clusterSpans);
        |proposals| == |r| &&
        forall i :: 0 <= i < |r| ==>
          proposals[i].index == i && Holds(proposals[i].tokens, r[i]) && proposals[i].text == JoinTokens(Texts(r[i]))
    {
      var prefix := context + "\n\n" + contextToken + " ";
      var adjusted := AdjustLoop(clusters, clusterSpans, |prefix|);
      assert |prefix| == |Prefix(context, contextToken)|;
      assert adjusted == AdjustedFor(context, contextToken, clusters, clusterSpans);
      AdjustKeepsCanonical(clusters, clusterSpans, |prefix|);
      var antecedents := MultiWordMentions(adjusted.mentions) + systemTokens;
      assert antecedents == Antecedents(adjusted.mentions, systemTokens);
      AntecedentsNonEmpty(adjusted.mentions, systemTokens);
      var groups := TokenizeBySentences(text, antecedents);
      groups := ReplaceCoreferenceBySpans(groups, adjusted.mentions, adjusted.spans, SentenceGroups(text, antecedents));
      ghost var r := Resolution(text, context, contextToken, systemTokens, clusters, clusterSpans);
      assert |r| == |groups| && forall h :: 0 <= h < |groups| ==> Holds(groups[h], r[h]);
      proposals := MakeProposals(groups, r);
    }
  }
}
