/** `prepareTextForTTS`: three regular-expression replacements that make a text speakable.

    A pattern is given by the length of its match at the start of a text, 0 when it
    does not match there. Characters are bytes in the "C" locale.
 */
module SpeechText {
  import opened Common

  type Pattern = string -> nat

  /** `std::regex_replace`: leftmost matches, none overlapping, each replaced. */
  function ReplaceAll(pattern: Pattern, with: string, s: string): string
    decreases |s|
  {
    if s == "" then ""
    else if 0 < pattern(s) <= |s| then with + ReplaceAll(pattern, with, s[pattern(s)..])
    else [s[0]] + ReplaceAll(pattern, with, s[1..])
  }

  predicate IsHash(c: char) { c == '#' }

  predicate IsVisible(c: char) { !IsSpace(c) }

  /** The length of the longest prefix of characters satisfying p. */
  function Span(p: char -> bool, s: string): (n: nat)
    ensures n <= |s| && (forall i :: 0 <= i < n ==> p(s[i])) && (n < |s| ==> !p(s[n]))
  {
    if s == "" || !p(s[0]) then 0 else 1 + Span(p, s[1..])
  }

  /** `###` */
  function ThreeHashes(s: string): nat { if "###" <= s then 3 else 0 }

  /** `#` */
  function OneHash(s: string): nat { if "#" <= s then 1 else 0 }

  /** `\s\s+`, greedy. */
  function ManyBlanks(s: string): nat { if Span(IsSpace, s) >= 2 then Span(IsSpace, s) else 0 }

  function RemoveTriples(s: string): string { ReplaceAll(ThreeHashes, "", s) }

  function SpellHashes(s: string): string { ReplaceAll(OneHash, "hastag ", s) }

  function Collapse(s: string): string { ReplaceAll(ManyBlanks, " ", s) }

  function PrepareTextForTTS(ttsText: string): string {
    var modified := RemoveTriples(ttsText);
    var modified := SpellHashes(modified);
    Collapse(modified)
  }

  // ------------------------------------------------------------------ reference

  function Repeat(word: string, n: nat): string {
    if n == 0 then "" else word + Repeat(word, n - 1)
  }

  /** Each maximal run of hashes, length n, read as n mod 3 words. */
  function ByRuns(s: string): string
    decreases |s|
  {
    if s == "" then ""
    else if IsHash(s[0]) then Repeat("hastag ", Span(IsHash, s) % 3) + ByRuns(s[Span(IsHash, s)..])
    else [s[0]] + ByRuns(s[1..])
  }

  /** The sum over the maximal runs of hashes of their length mod 3. */
  function SpokenHashes(s: string): nat
    decreases |s|
  {
    if s == "" then 0
    else if IsHash(s[0]) then Span(IsHash, s) % 3 + SpokenHashes(s[Span(IsHash, s)..])
    else SpokenHashes(s[1..])
  }

  /** The maximal words between blanks. */
  function Words(s: string): seq<string>
    decreases |s|
  {
    if s == "" then []
    else if IsSpace(s[0]) then Words(s[1..])
    else [s[..Span(IsVisible, s)]] + Words(s[Span(IsVisible, s)..])
  }

  function Count(p: char -> bool, s: string): nat {
    if s == "" then 0 else (if p(s[0]) then 1 else 0) + Count(p, s[1..])
  }

  predicate NoHash(s: string) { forall i :: 0 <= i < |s| ==> s[i] != '#' }

  predicate NoDoubleBlank(s: string) { forall i :: 0 < i < |s| ==> !(IsSpace(s[i - 1]) && IsSpace(s[i])) }

  // ----------------------------------------------------------------- the rewriting

  lemma {:induction false} SpanShift(p: char -> bool, s: string, k: nat)
    requires k <= Span(p, s)
    ensures Span(p, s[k..]) == Span(p, s) - k
  {
    if k > 0 {
      SpanShift(p, s[1..], k - 1);
      assert s[1..][k - 1..] == s[k..];
    } else {
      assert s[0..] == s;
    }
  }

  lemma SpanFrom(p: char -> bool, s: string, n: nat)
    requires n <= |s| && (forall i :: 0 <= i < n ==> p(s[i])) && (n < |s| ==> !p(s[n]))
    ensures Span(p, s) == n
  {
  }

  lemma ThreeHashesIff(s: string)
    ensures ThreeHashes(s) > 0 <==> Span(IsHash, s) >= 3
  {
    if Span(IsHash, s) >= 3 { assert s[..3] == "###"; }
  }

  /** A run of hashes is read as a whole. */
  lemma ReadRun(s: string, n: nat, tail: string)
    requires n > 0 && Span(IsHash, s) == n && tail == s[n..]
    ensures ByRuns(s) == Repeat("hastag ", n % 3) + ByRuns(tail)
    ensures SpokenHashes(s) == n % 3 + SpokenHashes(tail)
  {
  }

  /** Three hashes fewer at the front of a run. */
  lemma ByRunsDropThree(s: string)
    requires Span(IsHash, s) >= 3
    ensures ByRuns(s) == ByRuns(s[3..]) && SpokenHashes(s) == SpokenHashes(s[3..])
  {
    var n := Span(IsHash, s);
    SpanShift(IsHash, s, 3);
    assert s[3..][n - 3..] == s[n..];
    ReadRun(s, n, s[n..]);
    if n == 3 {
      assert Repeat("hastag ", 0) == "" && "" + ByRuns(s[3..]) == ByRuns(s[3..]);
    } else {
      assert n % 3 == (n - 3) % 3;
      ReadRun(s[3..], n - 3, s[n..]);
    }
  }

  lemma RepeatOnce(word: string, tail: string)
    ensures Repeat(word, 1) + tail == word + tail
  {
    assert Repeat(word, 0) == "";
  }

  lemma RepeatTwice(word: string, tail: string)
    ensures Repeat(word, 2) + tail == word + (Repeat(word, 1) + tail)
  {
    assert Repeat(word, 2) == word + Repeat(word, 1);
  }

  /** One hash fewer at the front of a run of at most two. */
  lemma ByRunsDropOne(s: string)
    requires 1 <= Span(IsHash, s) < 3
    ensures ByRuns(s) == "hastag " + ByRuns(s[1..]) && SpokenHashes(s) == 1 + SpokenHashes(s[1..])
  {
    SpanShift(IsHash, s, 1);
    ByRunsStep(s, Span(IsHash, s));
    if Span(IsHash, s) == 2 {
      ByRunsStep(s[1..], 1);
      assert s[1..][1..] == s[2..];
      RepeatTwice("hastag ", ByRuns(s[2..]));
    } else {
      RepeatOnce("hastag ", ByRuns(s[1..]));
    }
  }

  lemma ByRunsStep(s: string, n: nat)
    requires 1 <= n < 3 && Span(IsHash, s) == n
    ensures ByRuns(s) == Repeat("hastag ", n) + ByRuns(s[n..])
    ensures SpokenHashes(s) == n + SpokenHashes(s[n..])
  {
    ReadRun(s, n, s[n..]);
    assert n % 3 == n;
  }

  /** The two hash replacements together read every maximal run mod 3; the number of
      words spelled out is the sum of those remainders. */
  lemma {:induction false} HashesByRuns(s: string)
    ensures SpellHashes(RemoveTriples(s)) == ByRuns(s)
    ensures Count(IsHash, RemoveTriples(s)) == SpokenHashes(s)
    decreases |s|
  {
    if s != "" {
      ThreeHashesIff(s);
      if ThreeHashes(s) > 0 {
        ByRunsDropThree(s);
        HashesByRuns(s[3..]);
        assert RemoveTriples(s) == RemoveTriples(s[3..]);
      } else {
        HashesByRuns(s[1..]);
        var rest := RemoveTriples(s[1..]);
        assert RemoveTriples(s) == [s[0]] + rest;
        SpellFirst(s[0], rest);
        if s[0] == '#' { ByRunsDropOne(s); }
      }
    }
  }

  lemma SpellFirst(c: char, rest: string)
    ensures SpellHashes([c] + rest) == (if c == '#' then "hastag " else [c]) + SpellHashes(rest)
    ensures Count(IsHash, [c] + rest) == (if c == '#' then 1 else 0) + Count(IsHash, rest)
  {
    var s := [c] + rest;
    assert s[1..] == rest;
    if c == '#' { assert s[..1] == "#"; } else { assert !("#" <= s); }
  }

  lemma {:induction false} SpelledHasNoHash(s: string)
    ensures NoHash(SpellHashes(s))
    ensures |SpellHashes(s)| == |s| + 6 * Count(IsHash, s)
  {
    if s != "" {
      SpelledHasNoHash(s[1..]);
      SpellFirst(s[0], s[1..]);
      assert s == [s[0]] + s[1..];
    }
  }

  /** Exactly the texts without a hash are left alone by both hash replacements. */
  lemma {:induction false} HashFreeUnchanged(s: string)
    requires NoHash(s)
    ensures ByRuns(s) == s
  {
    if s != "" {
      assert NoHash(s[1..]);
      HashFreeUnchanged(s[1..]);
    }
  }

  // ---------------------------------------------------------------------- blanks

  /** One step of the blank replacement: a whole run of blanks, or one visible character. */
  lemma CollapseStep(s: string)
    requires s != ""
    ensures IsSpace(s[0]) ==> Span(IsSpace, s) > 0
    ensures IsSpace(s[0]) ==> Collapse(s) == (if Span(IsSpace, s) == 1 then [s[0]] else " ") + Collapse(s[Span(IsSpace, s)..])
    ensures !IsSpace(s[0]) ==> Collapse(s) == [s[0]] + Collapse(s[1..])
  {
  }

  /** What the collapsed text starts with. */
  lemma CollapseHead(s: string)
    ensures s != "" ==> Collapse(s) != "" && (IsSpace(s[0]) <==> IsSpace(Collapse(s)[0]))
    ensures s == "" ==> Collapse(s) == ""
  {
    if s != "" { CollapseStep(s); }
  }

  lemma {:induction false} CollapsedHasNoDouble(s: string)
    ensures NoDoubleBlank(Collapse(s))
    decreases |s|
  {
    if s != "" {
      CollapseStep(s);
      var k := if IsSpace(s[0]) then Span(IsSpace, s) else 1;
      CollapsedHasNoDouble(s[k..]);
      CollapseHead(s[k..]);
      assert k < |s| && IsSpace(s[0]) ==> !IsSpace(s[k..][0]);
    }
  }

  lemma {:induction false} CollapseKeepsHashFree(s: string)
    requires NoHash(s)
    ensures NoHash(Collapse(s))
    decreases |s|
  {
    if s != "" {
      CollapseStep(s);
      CollapseKeepsHashFree(s[if IsSpace(s[0]) then Span(IsSpace, s) else 1..]);
    }
  }

  lemma {:induction false} SingleBlanksUnchanged(s: string)
    requires NoDoubleBlank(s)
    ensures Collapse(s) == s
  {
    if s != "" {
      assert NoDoubleBlank(s[1..]) by {
        forall i | 0 < i < |s| - 1 ensures !(IsSpace(s[1..][i - 1]) && IsSpace(s[1..][i])) { assert s[1..][i] == s[i + 1]; }
      }
      SingleBlanksUnchanged(s[1..]);
      CollapseStep(s);
      if IsSpace(s[0]) { SpanFrom(IsSpace, s, 1); }
    }
  }

  /** Between two blanks: the last character of a and the first of b. */
  predicate InGap(a: string, b: string) {
    a != "" && b != "" && IsSpace(a[|a| - 1]) && IsSpace(b[0])
  }

  /** A run of blanks that ends before the cut is the same run in the longer text. */
  lemma SpanBeforeCut(a: string, b: string)
    requires a != "" && !InGap(a, b)
    ensures Span(IsSpace, a + b) == Span(IsSpace, a)
  {
    var n := Span(IsSpace, a);
    assert n < |a| ==> (a + b)[n] == a[n];
    assert n == |a| ==> IsSpace(a[|a| - 1]);
    SpanFrom(IsSpace, a + b, n);
  }

  lemma {:induction false} CollapseCut(a: string, b: string)
    requires !InGap(a, b)
    ensures Collapse(a + b) == Collapse(a) + Collapse(b)
    decreases |a|
  {
    if a == "" {
      assert a + b == b;
    } else {
      CollapseStepCut(a, b);
      CollapseCut(a[StepSize(a)..], b);
      Regroup(StepHead(a), Collapse(a[StepSize(a)..]), Collapse(b));
    }
  }

  lemma Regroup(x: string, y: string, z: string)
    ensures (x + y) + z == x + (y + z)
  {
  }

  function StepHead(s: string): string
    requires s != ""
  {
    if IsSpace(s[0]) && StepSize(s) > 1 then " " else [s[0]]
  }

  function StepSize(s: string): (k: nat)
    requires s != ""
    ensures 0 < k <= |s|
  {
    if IsSpace(s[0]) then Span(IsSpace, s) else 1
  }

  /** One step, before the cut, is the same step in the longer text. */
  lemma CollapseStepCut(a: string, b: string)
    requires a != "" && !InGap(a, b)
    ensures !InGap(a[StepSize(a)..], b)
    ensures Collapse(a) == StepHead(a) + Collapse(a[StepSize(a)..])
    ensures Collapse(a + b) == StepHead(a) + Collapse(a[StepSize(a)..] + b)
  {
    SpanBeforeCut(a, b);
    var whole, k := a + b, StepSize(a);
    CollapseStep(a);
    CollapseStep(whole);
    assert whole[0] == a[0] && whole[k..] == a[k..] + b;
  }

  lemma {:induction false} CollapseLast(s: string)
    requires s != ""
    ensures Collapse(s) != ""
    ensures IsSpace(s[|s| - 1]) ==> IsSpace(Collapse(s)[|Collapse(s)| - 1])
    decreases |s|
  {
    CollapseStep(s);
    var k := if IsSpace(s[0]) then Span(IsSpace, s) else 1;
    if k < |s| {
      CollapseLast(s[k..]);
      assert s[k..][|s| - k - 1] == s[|s| - 1];
    } else {
      assert Collapse(s[k..]) == "";
    }
  }

  /** A text may be collapsed piece by piece exactly when it is not cut inside a gap. */
  lemma CollapseCutIff(a: string, b: string)
    ensures Collapse(a + b) == Collapse(a) + Collapse(b) <==> !InGap(a, b)
  {
    if InGap(a, b) {
      CollapseLast(a);
      CollapseHead(b);
      CollapsedHasNoDouble(a + b);
      var n := |Collapse(a)|;
      assert (Collapse(a) + Collapse(b))[n - 1] == Collapse(a)[n - 1];
      assert (Collapse(a) + Collapse(b))[n] == Collapse(b)[0];
    } else {
      CollapseCut(a, b);
    }
  }

  /** A gap becomes one space, or stays when it is a single character; what is around
      it is treated on its own. */
  lemma GapCollapses(a: string, gap: string, b: string)
    requires gap != "" && forall i :: 0 <= i < |gap| ==> IsSpace(gap[i])
    requires (a != "" ==> !IsSpace(a[|a| - 1])) && (b != "" ==> !IsSpace(b[0]))
    ensures Collapse(a + (gap + b)) == Collapse(a) + ((if |gap| == 1 then gap else " ") + Collapse(b))
  {
    CollapseCut(a, gap + b);
    CollapseCut(gap, b);
    SpanFrom(IsSpace, gap, |gap|);
    CollapseStep(gap);
    assert Collapse(gap[|gap|..]) == "";
    if |gap| == 1 { assert gap == [gap[0]]; }
  }

  lemma {:induction false} VisiblePrefix(s: string, n: nat)
    requires n <= Span(IsVisible, s)
    ensures Collapse(s) == s[..n] + Collapse(s[n..])
  {
    if n > 0 {
      CollapseStep(s);
      SpanShift(IsVisible, s, 1);
      VisiblePrefix(s[1..], n - 1);
      assert s[1..][n - 1..] == s[n..];
    } else {
      assert s[0..] == s;
    }
  }

  lemma {:induction false} WordsSkipBlanks(s: string, n: nat)
    requires n <= Span(IsSpace, s)
    ensures Words(s[n..]) == Words(s)
  {
    if n > 0 {
      SpanShift(IsSpace, s, 1);
      WordsSkipBlanks(s[1..], n - 1);
      assert s[1..][n - 1..] == s[n..];
    } else {
      assert s[0..] == s;
    }
  }

  /** A visible word at the front. */
  lemma FirstWord(s: string, n: nat)
    requires n > 0 && Span(IsVisible, s) == n
    ensures Words(s) == [s[..n]] + Words(s[n..])
  {
  }

  lemma WordStays(s: string)
    requires s != "" && !IsSpace(s[0])
    requires Words(Collapse(s[Span(IsVisible, s)..])) == Words(s[Span(IsVisible, s)..])
    ensures Words(Collapse(s)) == Words(s)
  {
    var n := Span(IsVisible, s);
    assert n > 0;
    var word, tail := s[..n], s[n..];
    VisiblePrefix(s, n);
    CollapseHead(tail);
    var t := word + Collapse(tail);
    SpanFrom(IsVisible, t, n);
    assert t[..n] == word && t[n..] == Collapse(tail);
    FirstWord(s, n);
    FirstWord(t, n);
  }

  lemma GapStays(s: string)
    requires s != "" && IsSpace(s[0])
    requires Words(Collapse(s[Span(IsSpace, s)..])) == Words(s[Span(IsSpace, s)..])
    ensures Words(Collapse(s)) == Words(s)
  {
    var n := Span(IsSpace, s);
    CollapseStep(s);
    WordsSkipBlanks(s, n);
    var head := if n == 1 then [s[0]] else " ";
    assert (head + Collapse(s[n..]))[1..] == Collapse(s[n..]);
  }

  /** Only gaps change: the words and their order stay. */
  lemma {:induction false} CollapseKeepsWords(s: string)
    ensures Words(Collapse(s)) == Words(s)
    decreases |s|
  {
    if s != "" {
      if IsSpace(s[0]) {
        CollapseStep(s);
        CollapseKeepsWords(s[Span(IsSpace, s)..]);
        GapStays(s);
      } else {
        assert Span(IsVisible, s) > 0;
        CollapseKeepsWords(s[Span(IsVisible, s)..]);
        WordStays(s);
      }
    }
  }

  // ------------------------------------------------------------------- the result

  /** The result has no hash and no two adjacent blanks, and says the words of the
      text with every maximal run of hashes read as its length mod 3. */
  lemma Prepared(s: string)
    ensures NoHash(PrepareTextForTTS(s)) && NoDoubleBlank(PrepareTextForTTS(s))
    ensures PrepareTextForTTS(s) == Collapse(ByRuns(s))
    ensures Words(PrepareTextForTTS(s)) == Words(ByRuns(s))
  {
    HashesByRuns(s);
    SpelledHasNoHash(RemoveTriples(s));
    CollapseKeepsHashFree(ByRuns(s));
    CollapsedHasNoDouble(ByRuns(s));
    CollapseKeepsWords(ByRuns(s));
  }

  lemma {:induction false} CountConcat(p: char -> bool, a: string, b: string)
    ensures Count(p, a + b) == Count(p, a) + Count(p, b)
  {
    if a == "" {
      assert a + b == b;
    } else {
      assert (a + b)[1..] == a[1..] + b;
      CountConcat(p, a[1..], b);
    }
  }

  lemma {:induction false} CountAll(p: char -> bool, s: string)
    ensures (forall i :: 0 <= i < |s| ==> p(s[i])) ==> Count(p, s) == |s|
    ensures (forall i :: 0 <= i < |s| ==> !p(s[i])) ==> Count(p, s) == 0
  {
    if s != "" { CountAll(p, s[1..]); }
  }

  lemma {:induction false} VisibleOfRepeat(n: nat)
    ensures Count(IsVisible, Repeat("hastag ", n)) == 6 * n
  {
    if n > 0 {
      VisibleOfRepeat(n - 1);
      CountConcat(IsVisible, "hastag ", Repeat("hastag ", n - 1));
      CountConcat(IsVisible, "hastag", " ");
      CountAll(IsVisible, "hastag");
      CountAll(IsVisible, " ");
      assert "hastag " == "hastag" + " ";
    }
  }

  /** Reading runs: hashes out, six letters in for every spoken one. */
  lemma {:induction false} VisibleByRuns(s: string)
    ensures Count(IsVisible, ByRuns(s)) + Count(IsHash, s) == Count(IsVisible, s) + 6 * SpokenHashes(s)
    decreases |s|
  {
    if s != "" {
      if IsHash(s[0]) {
        var n := Span(IsHash, s);
        VisibleByRuns(s[n..]);
        ReadRun(s, n, s[n..]);
        VisibleOfRepeat(n % 3);
        CountConcat(IsVisible, Repeat("hastag ", n % 3), ByRuns(s[n..]));
        SplitCount(IsVisible, s, n);
        SplitCount(IsHash, s, n);
        CountAll(IsVisible, s[..n]);
        CountAll(IsHash, s[..n]);
      } else {
        VisibleByRuns(s[1..]);
        assert ByRuns(s)[1..] == ByRuns(s[1..]);
      }
    }
  }

  lemma SplitCount(p: char -> bool, s: string, n: nat)
    requires n <= |s|
    ensures Count(p, s) == Count(p, s[..n]) + Count(p, s[n..])
  {
    assert s == s[..n] + s[n..];
    CountConcat(p, s[..n], s[n..]);
  }

  lemma {:induction false} VisibleCollapsed(s: string)
    ensures Count(IsVisible, Collapse(s)) == Count(IsVisible, s)
    decreases |s|
  {
    if s != "" {
      CollapseStep(s);
      var k := StepSize(s);
      VisibleCollapsed(s[k..]);
      SplitCount(IsVisible, s, k);
      var head := StepHead(s);
      assert Collapse(s) == head + Collapse(s[k..]);
      CountConcat(IsVisible, head, Collapse(s[k..]));
      if IsSpace(s[0]) {
        CountAll(IsVisible, s[..k]);
        CountAll(IsVisible, head);
      } else {
        assert s[..1] == head;
      }
    }
  }

  /** Conservation: every visible character of the text is kept, except that its hashes
      go and six letters come for each of the hashes left over mod 3 of its runs. */
  lemma VisibleConserved(s: string)
    ensures Count(IsVisible, PrepareTextForTTS(s)) + Count(IsHash, s) == Count(IsVisible, s) + 6 * SpokenHashes(s)
  {
    Prepared(s);
    VisibleCollapsed(ByRuns(s));
    VisibleByRuns(s);
  }

  /** Exactly the normal forms are left alone. */
  lemma UnchangedIff(s: string)
    ensures PrepareTextForTTS(s) == s <==> NoHash(s) && NoDoubleBlank(s)
  {
    Prepared(s);
    if NoHash(s) && NoDoubleBlank(s) {
      HashFreeUnchanged(s);
      SingleBlanksUnchanged(s);
    }
  }

  lemma PreparingTwiceIsOnce(s: string)
    ensures PrepareTextForTTS(PrepareTextForTTS(s)) == PrepareTextForTTS(s)
  {
    Prepared(s);
    UnchangedIff(PrepareTextForTTS(s));
  }
}
