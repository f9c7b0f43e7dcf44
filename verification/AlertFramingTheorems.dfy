/** Chunk boundaries do not matter: the messages handed on are the messages sent. */
module AlertFramingTheorems {
  import opened Common
  import opened AlertFraming

  // ----------------------------------------------------------- what was sent

  /** A message on its own: the pattern matches all of it and nothing shorter. */
  predicate IsMessage(m: string) { FirstMatch(m) == Some(Span(0, |m|)) }

  /** White space, then a message. */
  datatype Item = Item(gap: string, message: string)

  /** What one server sends: items, then white space. */
  datatype Feed = Feed(items: seq<Item>, tail: string)

  predicate GoodFeed(f: Feed) {
    AllSpace(f.tail) && forall i :: 0 <= i < |f.items| ==> AllSpace(f.items[i].gap) && IsMessage(f.items[i].message)
  }

  function Size(item: Item): nat { |item.gap| + |item.message| }

  function Rest(f: Feed): Feed
    requires f.items != []
  {
    Feed(f.items[1..], f.tail)
  }

  function TextOf(f: Feed): string
    decreases |f.items|
  {
    if f.items == [] then f.tail else f.items[0].gap + f.items[0].message + TextOf(Rest(f))
  }

  /** How many messages are complete after n characters. */
  function Completed(f: Feed, n: nat): nat
    decreases |f.items|
  {
    if f.items == [] || n < Size(f.items[0]) then 0 else 1 + Completed(Rest(f), n - Size(f.items[0]))
  }

  /** The part of the next message that has arrived after n characters. */
  function Pending(f: Feed, n: nat): string
    decreases |f.items|
  {
    if f.items == [] then ""
    else if n < Size(f.items[0]) then
      if n <= |f.items[0].gap| then "" else f.items[0].message[..n - |f.items[0].gap|]
    else Pending(Rest(f), n - Size(f.items[0]))
  }

  /** The n-th cut falls just after a blank inside a message. */
  predicate BlankCut(f: Feed, n: nat) {
    Pending(f, n) != "" && IsSpace(Pending(f, n)[|Pending(f, n)| - 1])
  }

  function Messages(items: seq<Item>): seq<string> {
    if items == [] then [] else [items[0].message] + Messages(items[1..])
  }

  // --------------------------------------------------------- the pattern

  lemma CloseShift(w: string, t: string, k: nat)
    ensures CloseAt(w + t, |w| + k) == CloseAt(t, k)
    ensures OpenAt(w + t, |w| + k) == OpenAt(t, k)
  {
    if |w| + k + 8 <= |w + t| { assert (w + t)[|w| + k..|w| + k + 8] == t[k..k + 8]; }
    if |w| + k + 6 <= |w + t| { assert (w + t)[|w| + k..|w| + k + 5] == t[k..k + 5]; }
  }

  /** Where nothing can open: white space, for one, and any other text without a '<'. */
  predicate NoBracket(w: string) { forall i :: 0 <= i < |w| ==> w[i] != '<' }

  lemma NoOpenHere(w: string, t: string, k: nat)
    requires NoBracket(w) && k < |w|
    ensures !OpenAt(w + t, k)
  {
    assert (w + t)[k] == w[k];
    assert OPENING[0] == '<';
  }

  lemma {:induction false} FindOpenShift(w: string, t: string, k: nat)
    ensures FindOpen(w + t, |w| + k) == (if FindOpen(t, k) < 0 then -1 else |w| + FindOpen(t, k))
    decreases |t| - k
  {
    if k < |t| {
      CloseShift(w, t, k);
      FindOpenShift(w, t, k + 1);
    }
  }

  lemma {:induction false} FindCloseShift(w: string, t: string, k: nat)
    ensures FindClose(w + t, |w| + k) == (if FindClose(t, k) < 0 then -1 else |w| + FindClose(t, k))
    decreases |t| - k
  {
    if k < |t| {
      CloseShift(w, t, k);
      FindCloseShift(w, t, k + 1);
    }
  }

  lemma {:induction false} FindOpenSkips(w: string, t: string, k: nat)
    requires NoBracket(w) && k <= |w|
    ensures FindOpen(w + t, k) == FindOpen(w + t, |w|)
    decreases |w| - k
  {
    if k < |w| {
      NoOpenHere(w, t, k);
      FindOpenSkips(w, t, k + 1);
    }
  }

  /** What comes before, white space for one, only shifts the match. */
  lemma MatchAfter(w: string, t: string)
    requires NoBracket(w)
    ensures match FirstMatch(t)
      case None => FirstMatch(w + t).None?
      case Some(m) => FirstMatch(w + t) == Some(Span(|w| + m.start, |w| + m.end))
  {
    FindOpenSkips(w, t, 0);
    FindOpenShift(w, t, 0);
    var i := FindOpen(t, 0);
    if i >= 0 { FindCloseShift(w, t, i + 6); }
  }

  lemma PrefixMatches(m: string, t: string, x: Span)
    requires x.end <= |m|
    ensures Matches(m + t, x) == Matches(m, x)
  {
    if x.start + 6 <= |m| {
      assert (m + t)[x.start..x.start + 5] == m[x.start..x.start + 5];
    }
    if x.end >= 8 {
      assert (m + t)[x.end - 8..x.end] == m[x.end - 8..x.end];
    }
  }

  /** What follows a message does not disturb its match. */
  lemma MatchOfMessage(m: string, t: string)
    requires IsMessage(m)
    ensures FirstMatch(m + t) == Some(Span(0, |m|))
  {
    FirstMatchSpec(m);
    FirstMatchSpec(m + t);
    PrefixMatches(m, t, Span(0, |m|));
    assert Matches(m + t, Span(0, |m|));
    var m' := FirstMatch(m + t).value;
    PrefixMatches(m, t, m');
  }

  /** A message that is not complete does not match. */
  lemma PartDoesNotMatch(m: string, j: nat)
    requires IsMessage(m) && j < |m|
    ensures FirstMatch(m[..j]).None?
  {
    FirstMatchSpec(m);
    FirstMatchSpec(m[..j]);
    assert m[..j] + m[j..] == m;
    forall x ensures Matches(m[..j], x) ==> Matches(m, Span(0, x.end)) && x.end <= j {
      if x.end <= j { PrefixMatches(m[..j], m[j..], x); }
    }
  }

  lemma MessageShape(m: string)
    requires IsMessage(m)
    ensures |m| >= 14 && !IsSpace(m[0]) && !IsSpace(m[|m| - 1])
  {
    FirstMatchSpec(m);
    assert m[0..5][0] == '<';
    assert m[|m| - 8..|m|][7] == '>';
  }

  /** No end tag is complete in t followed by one, before that one is. */
  predicate NoEarlyEnd(t: string) { forall k :: 0 <= k < |t| ==> !TagAt(t + "</alert>", k) }

  predicate TagAt(s: string, k: nat) { k + 8 <= |s| && s[k..k + 8] == "</alert>" }

  predicate HasForm(m: string, c: char, t: string) {
    c as int in {32, 9, 10, 11, 12, 13} && NoEarlyEnd(t) && m == "<?xml" + [c] + t + "</alert>"
  }

  lemma FormMatches(m: string, c: char, t: string)
    requires c as int in {32, 9, 10, 11, 12, 13} && m == "<?xml" + [c] + t + "</alert>"
    ensures Matches(m, Span(0, |m|)) && |m| == |t| + 14 && m[6..] == t + "</alert>"
  {
    assert m[0..5] == "<?xml" && m[5] == c && m[|m| - 8..|m|] == "</alert>";
  }

  lemma TagShift(m: string, u: string, k: nat)
    requires |m| >= 6 && m[6..] == u && k + 8 <= |u|
    ensures u[k..k + 8] == m[6 + k..14 + k]
  {
  }

  lemma {:induction false} FormIsMessage(m: string, c: char, t: string)
    requires HasForm(m, c, t)
    ensures IsMessage(m)
  {
    FirstMatchSpec(m);
    FormMatches(m, c, t);
    var x := FirstMatch(m).value;
    var k := x.end - 14;
    assert x.start == 0;
    if k < |t| {
      TagShift(m, t + "</alert>", k);
      assert TagAt(t + "</alert>", k);
    }
  }

  lemma MessageHasForm(m: string) returns (c: char, t: string)
    requires IsMessage(m)
    ensures HasForm(m, c, t)
  {
    FirstMatchSpec(m);
    c, t := m[5], m[6..|m| - 8];
    assert m == m[0..5] + [c] + t + m[|m| - 8..|m|];
    FormMatches(m, c, t);
    forall k | 0 <= k < |t| ensures !TagAt(t + "</alert>", k) {
      assert !Matches(m, Span(0, 14 + k));
      TagShift(m, t + "</alert>", k);
    }
  }

  /** Exactly the texts that are messages. */
  lemma MessageIff(m: string)
    ensures IsMessage(m) <==> exists c, t :: HasForm(m, c, t)
  {
    if IsMessage(m) { var c, t := MessageHasForm(m); }
    if c, t :| HasForm(m, c, t) { FormIsMessage(m, c, t); }
  }

  // ------------------------------------------------------------ trimming

  lemma {:induction false} TrimLeftSpace(w: string, t: string)
    requires AllSpace(w) && (t != "" ==> !IsSpace(t[0]))
    ensures TrimLeft(w + t) == t
  {
    if w == "" {
      assert w + t == t;
    } else {
      assert (w + t)[1..] == w[1..] + t;
      TrimLeftSpace(w[1..], t);
    }
  }

  lemma {:induction false} TrimRightLength(s: string)
    ensures |TrimRight(s)| == |s| <==> s == "" || !IsSpace(s[|s| - 1])
    ensures |TrimRight(s)| <= |s|
  {
    if s != "" && IsSpace(s[|s| - 1]) { TrimRightLength(s[..|s| - 1]); }
  }

  lemma {:induction false} TrimLeftSpec(s: string) returns (w: string)
    ensures AllSpace(w) && s == w + TrimLeft(s)
    ensures TrimLeft(s) != "" ==> !IsSpace(TrimLeft(s)[0])
  {
    if s != "" && IsSpace(s[0]) {
      var v := TrimLeftSpec(s[1..]);
      w := [s[0]] + v;
    } else {
      w := "";
    }
  }

  lemma {:induction false} TrimRightSpec(s: string) returns (w: string)
    ensures AllSpace(w) && s == TrimRight(s) + w
    ensures TrimRight(s) != "" ==> !IsSpace(TrimRight(s)[|TrimRight(s)| - 1])
  {
    if s != "" && IsSpace(s[|s| - 1]) {
      var v := TrimRightSpec(s[..|s| - 1]);
      w := v + [s[|s| - 1]];
    } else {
      w := "";
    }
  }

  /** Trimming takes white space from both ends, and all of it. */
  lemma TrimSpec(s: string) returns (v: string, w: string)
    ensures AllSpace(v) && AllSpace(w) && s == v + Trim(s) + w
    ensures Trim(s) != "" ==> !IsSpace(Trim(s)[0]) && !IsSpace(Trim(s)[|Trim(s)| - 1])
  {
    v := TrimLeftSpec(s);
    w := TrimRightSpec(TrimLeft(s));
    assert s == v + (Trim(s) + w);
    if Trim(s) != "" { assert TrimLeft(s)[0] == Trim(s)[0]; }
  }

  /** Trimming keeps the received part of the next message exactly when that part
      does not end in white space. */
  lemma TrimKeepsPartIff(w: string, p: string)
    requires AllSpace(w) && (p != "" ==> !IsSpace(p[0]))
    ensures Trim(w + p) == p <==> p == "" || !IsSpace(p[|p| - 1])
  {
    TrimLeftSpace(w, p);
    TrimRightLength(p);
  }

  // -------------------------------------------------- one stretch of the feed

  /** b is white space followed by p. */
  predicate SpaceThen(b: string, p: string) {
    |p| <= |b| && b[|b| - |p|..] == p && forall i :: 0 <= i < |b| - |p| ==> IsSpace(b[i])
  }

  lemma SpaceThenOf(w: string, p: string)
    requires AllSpace(w)
    ensures SpaceThen(w + p, p)
  {
    assert (w + p)[|w|..] == p;
  }

  lemma {:induction false} CompletedBound(f: Feed, n: nat)
    ensures Completed(f, n) <= |f.items|
    decreases |f.items|
  {
    if f.items != [] && n >= Size(f.items[0]) { CompletedBound(Rest(f), n - Size(f.items[0])); }
  }

  /** What is pending is a proper part of the next message. */
  lemma {:induction false} PendingIsPart(f: Feed, n: nat)
    requires Pending(f, n) != ""
    ensures Completed(f, n) < |f.items|
    ensures var m := f.items[Completed(f, n)].message; |Pending(f, n)| < |m| && Pending(f, n) == m[..|Pending(f, n)|]
    decreases |f.items|
  {
    if n >= Size(f.items[0]) { PendingIsPart(Rest(f), n - Size(f.items[0])); }
  }

  lemma PendingDoesNotMatch(f: Feed, n: nat)
    requires GoodFeed(f)
    ensures FirstMatch(Pending(f, n)).None?
    ensures Pending(f, n) != "" ==> !IsSpace(Pending(f, n)[0])
  {
    if Pending(f, n) == "" {
      FirstMatchSpec("");
    } else {
      PendingIsPart(f, n);
      var m := f.items[Completed(f, n)].message;
      MessageShape(m);
      PartDoesNotMatch(m, |Pending(f, n)|);
    }
  }

  lemma TextStarts(f: Feed, n: nat)
    requires GoodFeed(f) && n <= |TextOf(f)| && Completed(f, n) == 0
    ensures SpaceThen(TextOf(f)[..n], Pending(f, n))
  {
    if f.items == [] {
      SpaceThenOf(f.tail[..n], "");
      assert f.tail[..n] + "" == f.tail[..n];
    } else {
      var g, m := f.items[0].gap, f.items[0].message;
      if n <= |g| {
        assert TextOf(f)[..n] == g[..n] + "";
        SpaceThenOf(g[..n], "");
      } else {
        assert TextOf(f)[..n] == g + m[..n - |g|];
        SpaceThenOf(g, m[..n - |g|]);
      }
    }
  }

  /** Past the first item only the rest matters. */
  lemma SliceRest(g: string, m: string, r: string, n: nat, n': nat)
    requires |g| + |m| <= n <= n' <= |g + m + r|
    ensures (g + m + r)[n..n'] == r[n - |g| - |m|..n' - |g| - |m|]
  {
  }

  lemma ShiftItem(f: Feed, n: nat, n': nat)
    requires f.items != [] && Size(f.items[0]) <= n <= n' <= |TextOf(f)|
    ensures var k := Size(f.items[0]);
      && n' - k <= |TextOf(Rest(f))| && TextOf(f)[n..n'] == TextOf(Rest(f))[n - k..n' - k]
      && Completed(f, n) == 1 + Completed(Rest(f), n - k) && Completed(f, n') == 1 + Completed(Rest(f), n' - k)
      && Pending(f, n) == Pending(Rest(f), n - k) && Pending(f, n') == Pending(Rest(f), n' - k)
  {
    SliceRest(f.items[0].gap, f.items[0].message, TextOf(Rest(f)), n, n');
  }

  /** Inside the first message, what is pending grows by what arrives. */
  lemma PartGrows(g: string, m: string, r: string, n: nat, n': nat)
    requires |g| <= n <= n' <= |g| + |m|
    ensures m[..n - |g|] + (g + m + r)[n..n'] == m[..n' - |g|]
  {
    assert (g + m + r)[n..n'] == m[n - |g|..n' - |g|];
  }

  lemma PendingSize(f: Feed, n: nat, n': nat)
    requires GoodFeed(f) && n <= n' <= |TextOf(f)| && Completed(f, n') == 0 && Pending(f, n) == ""
    ensures n + |Pending(f, n')| <= n'
  {
  }

  lemma NothingStarted(f: Feed, n: nat, n': nat)
    requires GoodFeed(f) && n <= n' <= |TextOf(f)| && Completed(f, n') == 0 && Pending(f, n) == ""
    ensures SpaceThen(TextOf(f)[n..n'], Pending(f, n'))
  {
    var t := TextOf(f);
    TextStarts(f, n');
    PendingSize(f, n, n');
    SuffixSpace(t[..n'], n, Pending(f, n'));
    assert t[n..n'] == t[..n'][n..];
  }

  /** What is left of the feed after the messages that are complete at n ... */
  function LeftAt(f: Feed, n: nat): Feed
    decreases |f.items|
  {
    if f.items == [] || n < Size(f.items[0]) then f else LeftAt(Rest(f), n - Size(f.items[0]))
  }

  /** ... and how many characters they take. */
  function Offset(f: Feed, n: nat): (k: nat)
    ensures k <= n
    decreases |f.items|
  {
    if f.items == [] || n < Size(f.items[0]) then 0 else Size(f.items[0]) + Offset(Rest(f), n - Size(f.items[0]))
  }

  lemma {:induction false} LeftItems(f: Feed, n: nat)
    ensures Completed(f, n) <= |f.items| && LeftAt(f, n).items == f.items[Completed(f, n)..]
    decreases |f.items|
  {
    if f.items != [] && n >= Size(f.items[0]) {
      LeftItems(Rest(f), n - Size(f.items[0]));
    } else {
      assert f.items[0..] == f.items;
    }
  }

  lemma {:induction false} LeftCounts(f: Feed, n: nat, n': nat)
    requires n <= n'
    ensures var g, k := LeftAt(f, n), Offset(f, n);
      && Completed(g, n - k) == 0 && Completed(f, n') == Completed(f, n) + Completed(g, n' - k)
      && Pending(f, n') == Pending(g, n' - k)
    decreases |f.items|
  {
    if f.items != [] && n >= Size(f.items[0]) { LeftCounts(Rest(f), n - Size(f.items[0]), n' - Size(f.items[0])); }
  }

  lemma {:induction false} LeftText(f: Feed, n: nat, n': nat)
    requires n <= n' <= |TextOf(f)|
    ensures var g, k := LeftAt(f, n), Offset(f, n);
      n' - k <= |TextOf(g)| && TextOf(f)[n..n'] == TextOf(g)[n - k..n' - k]
    decreases |f.items|
  {
    if f.items != [] && n >= Size(f.items[0]) {
      ShiftItem(f, n, n');
      LeftText(Rest(f), n - Size(f.items[0]), n' - Size(f.items[0]));
    }
  }

  lemma {:induction false} LeftIsGood(f: Feed, n: nat)
    requires GoodFeed(f)
    ensures GoodFeed(LeftAt(f, n))
    decreases |f.items|
  {
    if f.items != [] && n >= Size(f.items[0]) { LeftIsGood(Rest(f), n - Size(f.items[0])); }
  }

  /** From n on, only what is left matters. */
  lemma OnlyLeftMatters(f: Feed, n: nat, n': nat)
    requires GoodFeed(f) && n <= n' <= |TextOf(f)|
    ensures Completed(f, n) <= |f.items|
    ensures var g, k := LeftAt(f, n), Offset(f, n);
      && GoodFeed(g) && g.items == f.items[Completed(f, n)..] && n' - k <= |TextOf(g)|
      && Completed(g, n - k) == 0 && Completed(f, n') == Completed(f, n) + Completed(g, n' - k)
      && Pending(f, n) == Pending(g, n - k) && Pending(f, n') == Pending(g, n' - k)
      && TextOf(f)[n..n'] == TextOf(g)[n - k..n' - k]
  {
    LeftIsGood(f, n);
    LeftItems(f, n);
    LeftCounts(f, n, n);
    LeftCounts(f, n, n');
    LeftText(f, n, n');
  }

  lemma FirstGrows(f: Feed, n: nat, n': nat)
    requires n <= n' <= |TextOf(f)| && Completed(f, n') == 0 && Pending(f, n) != ""
    ensures Pending(f, n') == Pending(f, n) + TextOf(f)[n..n']
  {
    PartGrows(f.items[0].gap, f.items[0].message, TextOf(Rest(f)), n, n');
  }

  /** What is pending grows by what arrives, while nothing is completed. */
  lemma PendingGrows(f: Feed, n: nat, n': nat)
    requires GoodFeed(f) && n <= n' <= |TextOf(f)| && Completed(f, n') == Completed(f, n) && Pending(f, n) != ""
    ensures Pending(f, n') == Pending(f, n) + TextOf(f)[n..n']
  {
    OnlyLeftMatters(f, n, n');
    FirstGrows(LeftAt(f, n), n - Offset(f, n), n' - Offset(f, n));
  }

  /** More characters that complete no message extend what is pending. */
  lemma NothingCompleted(f: Feed, n: nat, n': nat)
    requires GoodFeed(f) && n <= n' <= |TextOf(f)| && Completed(f, n') == Completed(f, n)
    ensures SpaceThen(Pending(f, n) + TextOf(f)[n..n'], Pending(f, n'))
  {
    var p, c, q := Pending(f, n), TextOf(f)[n..n'], Pending(f, n');
    if p != "" {
      PendingGrows(f, n, n');
      SpaceThenSelf(q);
    } else {
      NothingYet(f, n, n');
      assert p + c == c;
    }
  }

  lemma NothingYet(f: Feed, n: nat, n': nat)
    requires GoodFeed(f) && n <= n' <= |TextOf(f)| && Completed(f, n') == Completed(f, n) && Pending(f, n) == ""
    ensures SpaceThen(TextOf(f)[n..n'], Pending(f, n'))
  {
    OnlyLeftMatters(f, n, n');
    NothingStarted(LeftAt(f, n), n - Offset(f, n), n' - Offset(f, n));
  }

  lemma SpaceThenSelf(p: string)
    ensures SpaceThen(p, p)
  {
  }

  lemma SuffixSpace(s: string, n: nat, p: string)
    requires SpaceThen(s, p) && n <= |s| - |p|
    ensures SpaceThen(s[n..], p)
  {
    assert s[n..][|s| - n - |p|..] == s[|s| - |p|..];
  }

  lemma SliceJoin(t: string, i: nat, j: nat, k: nat)
    requires i <= j <= k <= |t|
    ensures t[i..k] == t[i..j] + t[j..k]
  {
  }

  /** A message m after a gap g becomes complete, with the start of what follows it, r. */
  lemma CompleteFirst(g: string, m: string, r: string, n: nat, n': nat) returns (a: string, b: string)
    requires AllSpace(g) && n < |g| + |m| <= n' <= |g + m + r|
    ensures AllSpace(a) && b == r[..n' - |g| - |m|]
    ensures (if n <= |g| then "" else m[..n - |g|]) + (g + m + r)[n..n'] == a + (m + b)
  {
    b := r[..n' - |g| - |m|];
    if n <= |g| {
      a := g[n..];
      assert (g + m + r)[n..n'] == g[n..] + (m + b);
      assert "" + (g + m + r)[n..n'] == (g + m + r)[n..n'];
    } else {
      a := "";
      var t, x := g + m + r, |g| + |m|;
      assert t[n..x] == m[n - |g|..] && t[x..n'] == b;
      SliceJoin(t, n, x, n');
      assert m[..n - |g|] + (m[n - |g|..] + b) == "" + (m + b);
    }
  }

  /** The first message becomes complete. */
  lemma FirstCompleted(f: Feed, n: nat, n': nat) returns (a: string, b: string)
    requires GoodFeed(f) && f.items != [] && n < Size(f.items[0]) <= n' <= |TextOf(f)|
    requires Completed(Rest(f), n' - Size(f.items[0])) == 0
    ensures AllSpace(a) && SpaceThen(b, Pending(f, n'))
    ensures Pending(f, n) + TextOf(f)[n..n'] == a + (f.items[0].message + b)
  {
    TextStarts(Rest(f), n' - Size(f.items[0]));
    a, b := CompleteFirst(f.items[0].gap, f.items[0].message, TextOf(Rest(f)), n, n');
  }

  /** Characters that complete one message: white space up to it, the message, and
      then the start of what follows. */
  lemma OneCompleted(f: Feed, n: nat, n': nat) returns (a: string, b: string)
    requires GoodFeed(f) && n <= n' <= |TextOf(f)| && Completed(f, n') == Completed(f, n) + 1
    ensures Completed(f, n) < |f.items|
    ensures AllSpace(a) && SpaceThen(b, Pending(f, n'))
    ensures Pending(f, n) + TextOf(f)[n..n'] == a + (f.items[Completed(f, n)].message + b)
  {
    OnlyLeftMatters(f, n, n');
    a, b := FirstCompleted(LeftAt(f, n), n - Offset(f, n), n' - Offset(f, n));
  }

  // ------------------------------------------------------- one call of append

  lemma SpaceBefore(w: string, s: string, p: string)
    requires AllSpace(w) && SpaceThen(s, p)
    ensures SpaceThen(w + s, p)
  {
    assert (w + s)[|w + s| - |p|..] == s[|s| - |p|..];
  }

  /** An append that completes nothing queues nothing and keeps what is pending. */
  lemma QuietAppend(buffer: string, f: Feed, n: nat, n': nat)
    requires GoodFeed(f) && n <= n' <= |TextOf(f)| && Completed(f, n') == Completed(f, n)
    requires SpaceThen(buffer, Pending(f, n))
    ensures var s := buffer + TextOf(f)[n..n'];
      FirstMatch(s).None? && SpaceThen(s, Pending(f, n'))
  {
    var p, c := Pending(f, n), TextOf(f)[n..n'];
    var w := buffer[..|buffer| - |p|];
    assert buffer == w + p;
    assert buffer + c == w + (p + c);
    NothingCompleted(f, n, n');
    SpaceBefore(w, p + c, Pending(f, n'));
    PendingAloneDoesNotMatch(buffer + c, f, n');
  }

  lemma PendingAloneDoesNotMatch(s: string, f: Feed, n: nat)
    requires GoodFeed(f) && SpaceThen(s, Pending(f, n))
    ensures FirstMatch(s).None?
  {
    var p := Pending(f, n);
    var w := s[..|s| - |p|];
    assert s == w + p;
    PendingDoesNotMatch(f, n);
    MatchAfter(w, p);
  }

  /** An append that completes one message queues exactly that message; what is
      left is trimmed. */
  lemma CompletingSplit(buffer: string, f: Feed, n: nat, n': nat) returns (w: string)
    requires GoodFeed(f) && n <= n' <= |TextOf(f)| && Completed(f, n') == Completed(f, n) + 1
    requires SpaceThen(buffer, Pending(f, n))
    ensures Completed(f, n) < |f.items|
    ensures var s := buffer + TextOf(f)[n..n'];
      Matched(s) == [f.items[Completed(f, n)].message] && Unmatched(s) == Trim(w + Pending(f, n'))
    ensures AllSpace(w)
  {
    var v := SpaceBeforePart(buffer, Pending(f, n));
    var a, b := OneCompleted(f, n, n');
    var g := SpaceBeforePart(b, Pending(f, n'));
    var m := f.items[Completed(f, n)].message;
    Regroup(v, Pending(f, n), TextOf(f)[n..n'], a, m, b);
    CutMessage(v + a, m, b);
    w := v + a + g;
    assert (v + a) + b == w + Pending(f, n');
  }

  lemma SpaceBeforePart(s: string, p: string) returns (w: string)
    requires SpaceThen(s, p)
    ensures AllSpace(w) && s == w + p
  {
    w := s[..|s| - |p|];
  }

  lemma Regroup(v: string, p: string, c: string, a: string, m: string, b: string)
    requires p + c == a + (m + b)
    ensures (v + p) + c == (v + a) + (m + b)
  {
    assert (v + p) + c == v + (p + c);
  }

  /** With a fair cut, what has arrived of the next message is kept. */
  lemma CompletingAppend(buffer: string, f: Feed, n: nat, n': nat)
    requires GoodFeed(f) && n <= n' <= |TextOf(f)| && Completed(f, n') == Completed(f, n) + 1
    requires SpaceThen(buffer, Pending(f, n)) && !BlankCut(f, n')
    ensures Completed(f, n) < |f.items|
    ensures var s := buffer + TextOf(f)[n..n'];
      Matched(s) == [f.items[Completed(f, n)].message] && Unmatched(s) == Pending(f, n') && AtMostOneMatch(s)
  {
    var w := CompletingSplit(buffer, f, n, n');
    PendingDoesNotMatch(f, n');
    TrimKeepsPartIff(w, Pending(f, n'));
  }

  /** The message is cut out; what stood before and after it stays, trimmed. */
  lemma CutMessage(w: string, m: string, b: string)
    requires NoBracket(w) && IsMessage(m)
    ensures Matched(w + (m + b)) == [m] && Unmatched(w + (m + b)) == Trim(w + b)
  {
    var s := w + (m + b);
    MatchOfMessage(m, b);
    MatchAfter(w, m + b);
    assert s[|w|..|w| + |m|] == m;
    assert s[..|w|] == w && s[|w| + |m|..] == b;
  }

  // -------------------------------------------------------------- whole runs

  datatype Arrival = Arrival(host: string, chunk: string)

  function ReceivedBy(events: seq<Arrival>, host: string): string {
    if events == [] then "" else
    var e := events[|events| - 1];
    ReceivedBy(events[..|events| - 1], host) + (if e.host == host then e.chunk else "")
  }

  function RunIntake(events: seq<Arrival>): Intake {
    if events == [] then Intake(map[], [], []) else
    var e := events[|events| - 1];
    Receive(RunIntake(events[..|events| - 1]), e.host, e.chunk)
  }

  /** Every call of append meets the documented limit of one match. */
  predicate WithinLimit(events: seq<Arrival>) {
    events == [] ||
    var e := events[|events| - 1];
    var before := events[..|events| - 1];
    WithinLimit(before) && AtMostOneMatch(BufferOf(RunIntake(before).buffers, e.host) + e.chunk)
  }

  function DeliveredTo(ds: seq<Delivery>, host: string): seq<string> {
    if ds == [] then [] else
    var d := ds[|ds| - 1];
    DeliveredTo(ds[..|ds| - 1], host) + (if d.host == host then [d.message] else [])
  }

  /** The chunk that takes a feed from n to n' characters completes at most one
      message, and if it completes one it does not end in white space inside the next. */
  predicate FairCut(f: Feed, n: nat, n': nat) {
    && Completed(f, n') <= Completed(f, n) + 1
    && (Completed(f, n') == Completed(f, n) + 1 ==> !BlankCut(f, n'))
  }

  /** Every server sends its own feed, cut into fair chunks, in any interleaving. */
  predicate Orderly(feeds: map<string, Feed>, events: seq<Arrival>) {
    events == [] ||
    var e := events[|events| - 1];
    var before := events[..|events| - 1];
    && Orderly(feeds, before)
    && e.host in feeds
    && ReceivedBy(events, e.host) <= TextOf(feeds[e.host])
    && FairCut(feeds[e.host], |ReceivedBy(before, e.host)|, |ReceivedBy(events, e.host)|)
  }

  /** One host, from what it has sent so far, what is buffered and what was handed on. */
  predicate Served(f: Feed, received: string, buffer: string, delivered: seq<string>) {
    var n := |received|;
    && received <= TextOf(f)
    && SpaceThen(buffer, Pending(f, n))
    && Completed(f, n) <= |f.items|
    && delivered == Messages(f.items[..Completed(f, n)])
  }

  predicate HostOk(feeds: map<string, Feed>, events: seq<Arrival>, t: Intake, h: string)
    requires h in feeds
  {
    Served(feeds[h], ReceivedBy(events, h), BufferOf(t.buffers, h), DeliveredTo(t.delivered, h))
  }

  lemma {:induction false} MessagesSnoc(items: seq<Item>, k: nat)
    requires k < |items|
    ensures Messages(items[..k + 1]) == Messages(items[..k]) + [items[k].message]
  {
    if k == 0 {
      assert items[..1][1..] == [];
      assert items[..0] == [];
    } else {
      assert items[..k + 1][1..] == items[1..][..k];
      assert items[..k][1..] == items[1..][..k - 1];
      MessagesSnoc(items[1..], k - 1);
    }
  }

  /** What one append does for the host it is for. */
  lemma AppendServes(f: Feed, t: Intake, h: string, n: nat, n': nat)
    requires GoodFeed(f) && n <= n' <= |TextOf(f)| && FairCut(f, n, n') && Completed(f, n) <= Completed(f, n')
    requires t.matches == [] && SpaceThen(BufferOf(t.buffers, h), Pending(f, n))
    ensures Completed(f, n') <= |f.items|
    ensures var t' := Receive(t, h, TextOf(f)[n..n']);
      && AtMostOneMatch(BufferOf(t.buffers, h) + TextOf(f)[n..n'])
      && t'.matches == [] && SpaceThen(BufferOf(t'.buffers, h), Pending(f, n'))
      && t'.delivered == t.delivered +
           if Completed(f, n') == Completed(f, n) then [] else [Delivery(h, f.items[Completed(f, n)].message)]
  {
    var chunk := TextOf(f)[n..n'];
    CompletedBound(f, n');
    ReceiveOne(t, h, chunk);
    var s := BufferOf(t.buffers, h) + chunk;
    if Completed(f, n') == Completed(f, n) {
      assert FirstMatch(s).None? && SpaceThen(s, Pending(f, n')) by { QuietAppend(BufferOf(t.buffers, h), f, n, n'); }
    } else {
      CompletingAppend(BufferOf(t.buffers, h), f, n, n');
      SpaceThenSelf(Pending(f, n'));
    }
  }

  /** One append to an intake with no match waiting. */
  lemma ReceiveOne(t: Intake, h: string, chunk: string)
    requires t.matches == []
    ensures var t', s := Receive(t, h, chunk), BufferOf(t.buffers, h) + chunk;
      && t'.matches == [] && BufferOf(t'.buffers, h) == Unmatched(s)
      && t'.delivered == t.delivered + if Matched(s) == [] then [] else [Delivery(h, Matched(s)[0])]
  {
    var s := BufferOf(t.buffers, h) + chunk;
    assert [] + Matched(s) == Matched(s);
  }

  lemma {:induction false} CompletedMonotone(f: Feed, n: nat, n': nat)
    requires n <= n'
    ensures Completed(f, n) <= Completed(f, n')
    decreases |f.items|
  {
    if f.items != [] && n >= Size(f.items[0]) {
      CompletedMonotone(Rest(f), n - Size(f.items[0]), n' - Size(f.items[0]));
    }
  }

  lemma DeliveredSnoc(ds: seq<Delivery>, d: Delivery, h: string)
    ensures DeliveredTo(ds + [d], h) == DeliveredTo(ds, h) + if d.host == h then [d.message] else []
  {
    assert (ds + [d])[..|ds|] == ds;
  }

  lemma TextStartsEmpty(f: Feed)
    requires GoodFeed(f)
    ensures Completed(f, 0) == 0 && Pending(f, 0) == ""
  {
    if f.items != [] { MessageShape(f.items[0].message); }
  }

  /** The host that an append is for. */
  lemma FramingThisHost(f: Feed, t: Intake, h: string, n: nat, n': nat)
    requires GoodFeed(f) && n <= n' <= |TextOf(f)| && FairCut(f, n, n')
    requires t.matches == [] && SpaceThen(BufferOf(t.buffers, h), Pending(f, n))
    requires Completed(f, n) <= |f.items| && DeliveredTo(t.delivered, h) == Messages(f.items[..Completed(f, n)])
    ensures Completed(f, n') <= |f.items|
    ensures var t' := Receive(t, h, TextOf(f)[n..n']);
      && AtMostOneMatch(BufferOf(t.buffers, h) + TextOf(f)[n..n'])
      && t'.matches == [] && SpaceThen(BufferOf(t'.buffers, h), Pending(f, n'))
      && DeliveredTo(t'.delivered, h) == Messages(f.items[..Completed(f, n')])
  {
    CompletedMonotone(f, n, n');
    AppendServes(f, t, h, n, n');
    DeliveredNext(f, t.delivered, h, Completed(f, n), Completed(f, n'));
  }

  /** One more message, or none, on the list of those handed on. */
  lemma DeliveredNext(f: Feed, ds: seq<Delivery>, h: string, k: nat, k': nat)
    requires k <= k' <= k + 1 && k' <= |f.items| && DeliveredTo(ds, h) == Messages(f.items[..k])
    ensures DeliveredTo(ds + (if k' == k then [] else [Delivery(h, f.items[k].message)]), h) == Messages(f.items[..k'])
  {
    if k' == k {
      assert ds + [] == ds;
    } else {
      MessagesSnoc(f.items, k);
      DeliveredSnoc(ds, Delivery(h, f.items[k].message), h);
    }
  }

  /** Every other host is left alone. */
  lemma FramingOtherHost(t: Intake, host: string, chunk: string, h: string)
    requires h != host
    ensures var t' := Receive(t, host, chunk);
      BufferOf(t'.buffers, h) == BufferOf(t.buffers, h) && DeliveredTo(t'.delivered, h) == DeliveredTo(t.delivered, h)
  {
    var queue := t.matches + Matched(BufferOf(t.buffers, host) + chunk);
    if queue != [] {
      DeliveredSnoc(t.delivered, Delivery(host, queue[0]), h);
    } else {
      assert t.delivered + [] == t.delivered;
    }
  }

  lemma ChunkOf(r: string, chunk: string, t: string)
    requires r + chunk <= t
    ensures chunk == t[|r|..|r + chunk|]
  {
    assert chunk == (r + chunk)[|r|..];
  }

  lemma StepThisHost(feeds: map<string, Feed>, events: seq<Arrival>, before: seq<Arrival>, e: Arrival)
    requires events != [] && before == events[..|events| - 1] && e == events[|events| - 1]
    requires Orderly(feeds, events) && GoodFeed(feeds[e.host])
    requires RunIntake(before).matches == [] && HostOk(feeds, before, RunIntake(before), e.host)
    ensures AtMostOneMatch(BufferOf(RunIntake(before).buffers, e.host) + e.chunk)
    ensures RunIntake(events).matches == [] && HostOk(feeds, events, RunIntake(events), e.host)
  {
    var t, f := RunIntake(before), feeds[e.host];
    var r, r' := ReceivedBy(before, e.host), ReceivedBy(events, e.host);
    ChunkOf(r, e.chunk, TextOf(f));
    FramingThisHost(f, t, e.host, |r|, |r'|);
  }

  lemma ReceivedFromOther(events: seq<Arrival>, h: string)
    requires events != [] && events[|events| - 1].host != h
    ensures ReceivedBy(events, h) == ReceivedBy(events[..|events| - 1], h)
  {
    var r := ReceivedBy(events[..|events| - 1], h);
    assert r + "" == r;
  }

  lemma StepOtherHost(feeds: map<string, Feed>, events: seq<Arrival>, before: seq<Arrival>, e: Arrival, h: string)
    requires events != [] && before == events[..|events| - 1] && e == events[|events| - 1]
    requires h in feeds && h != e.host && HostOk(feeds, before, RunIntake(before), h)
    ensures HostOk(feeds, events, RunIntake(events), h)
  {
    FramingOtherHost(RunIntake(before), e.host, e.chunk, h);
    ReceivedFromOther(events, h);
  }

  /** For every interleaving and every fair chunking, each server's messages are
      handed on exactly as sent and in order, as soon as they are complete, and
      the queue of matches is empty between calls. */
  lemma {:induction false} Framing(feeds: map<string, Feed>, events: seq<Arrival>)
    requires forall h :: h in feeds ==> GoodFeed(feeds[h])
    requires Orderly(feeds, events)
    ensures WithinLimit(events) && RunIntake(events).matches == []
    ensures forall h :: h in feeds ==> HostOk(feeds, events, RunIntake(events), h)
  {
    if events == [] {
      forall h | h in feeds ensures HostOk(feeds, events, RunIntake(events), h) { TextStartsEmpty(feeds[h]); }
    } else {
      var before, e := events[..|events| - 1], events[|events| - 1];
      Framing(feeds, before);
      StepThisHost(feeds, events, before, e);
      forall h | h in feeds ensures HostOk(feeds, events, RunIntake(events), h) {
        if h != e.host { StepOtherHost(feeds, events, before, e, h); }
      }
    }
  }

  lemma {:induction false} AllCompleted(f: Feed)
    ensures Completed(f, |TextOf(f)|) == |f.items|
    decreases |f.items|
  {
    if f.items != [] { AllCompleted(Rest(f)); }
  }

  lemma ServedWhole(f: Feed, received: string, buffer: string, delivered: seq<string>)
    requires Served(f, received, buffer, delivered) && received == TextOf(f)
    ensures delivered == Messages(f.items)
  {
    AllCompleted(f);
    assert f.items[..|f.items|] == f.items;
  }

  /** Once all of a server's text has arrived, all of its messages have been handed on. */
  lemma {:induction false} WholeFeed(feeds: map<string, Feed>, events: seq<Arrival>, h: string)
    requires forall h :: h in feeds ==> GoodFeed(feeds[h])
    requires Orderly(feeds, events) && h in feeds && ReceivedBy(events, h) == TextOf(feeds[h])
    ensures DeliveredTo(RunIntake(events).delivered, h) == Messages(feeds[h].items)
  {
    Framing(feeds, events);
    assert HostOk(feeds, events, RunIntake(events), h);
    ServedWhole(feeds[h], ReceivedBy(events, h), BufferOf(RunIntake(events).buffers, h), DeliveredTo(RunIntake(events).delivered, h));
  }

  /** The messages handed on depend on what has arrived, not on how it was cut. */
  lemma {:induction false} ChunkingDoesNotMatter(feeds: map<string, Feed>, events: seq<Arrival>, events': seq<Arrival>, h: string)
    requires forall h :: h in feeds ==> GoodFeed(feeds[h])
    requires Orderly(feeds, events) && Orderly(feeds, events') && h in feeds
    requires ReceivedBy(events, h) == ReceivedBy(events', h)
    ensures DeliveredTo(RunIntake(events).delivered, h) == DeliveredTo(RunIntake(events').delivered, h)
  {
    Framing(feeds, events);
    Framing(feeds, events');
    assert HostOk(feeds, events, RunIntake(events), h);
    assert HostOk(feeds, events', RunIntake(events'), h);
  }

  /** Exactly when a completing append keeps the received part of the next message intact. */
  lemma KeepsNextIff(buffer: string, f: Feed, n: nat, n': nat)
    requires GoodFeed(f) && n <= n' <= |TextOf(f)| && Completed(f, n') == Completed(f, n) + 1
    requires SpaceThen(buffer, Pending(f, n))
    ensures Unmatched(buffer + TextOf(f)[n..n']) == Pending(f, n') <==> !BlankCut(f, n')
  {
    var w := CompletingSplit(buffer, f, n, n');
    PendingDoesNotMatch(f, n');
    TrimKeepsPartIff(w, Pending(f, n'));
  }

  lemma {:induction false} SpacelessNoMatch(s: string, k: nat)
    requires forall i :: 0 <= i < |s| ==> !IsSpace(s[i])
    ensures FindOpen(s, k) < 0
    decreases |s| - k
  {
    if k < |s| { SpacelessNoMatch(s, k + 1); }
  }

  lemma SmallMessage(m: string)
    requires m == "<?xml </alert>"
    ensures IsMessage(m)
  {
    var c: char, t: string := ' ', "";
    assert m == "<?xml" + [c] + t + "</alert>";
    FormIsMessage(m, c, t);
  }

  lemma CutAfterBlank(m: string, part: string)
    requires IsMessage(m) && part == "<?xml "
    ensures Matched(m + part) == [m] && Unmatched(m + part) == "<?xml"
  {
    CutMessage("", m, part);
    assert "" + (m + part) == m + part && "" + part == part;
    assert part[..5] == "<?xml";
    TrimLeftSpace("", part);
    TrimRightOnce("<?xml", ' ');
    assert part == "<?xml" + [' '];
  }

  lemma TrimRightOnce(s: string, c: char)
    requires s != "" && !IsSpace(s[|s| - 1]) && IsSpace(c)
    ensures TrimRight(s + [c]) == s
  {
    assert (s + [c])[..|s|] == s;
  }

  lemma GluedDoesNotMatch(s: string)
    requires s == "<?xml</alert>"
    ensures Matched(s) == []
  {
    SpacelessNoMatch(s, 0);
  }

  lemma TwoAppends(h: string, c1: string, c2: string, b: string, m: string, events: seq<Arrival>)
    requires events == [Arrival(h, c1), Arrival(h, c2)]
    requires Matched(c1) == [m] && Unmatched(c1) == b && Matched(b + c2) == []
    ensures RunIntake(events).delivered == [Delivery(h, m)]
    ensures ReceivedBy(events, h) == c1 + c2
  {
    var first := events[..1];
    assert first[..0] == [] && events[..1] == first;
    assert "" + c1 == c1 && [] + [m] == [m];
    assert ReceivedBy(first, h) == c1;
    assert RunIntake(first) == Receive(Intake(map[], [], []), h, c1);
    assert [Delivery(h, m)] + [] == [Delivery(h, m)];
  }

  lemma SmallParts(m: string, part: string, rest: string)
    requires m == "<?xml </alert>" && part == "<?xml " && rest == "</alert>"
    ensures part + rest == m && "<?xml" + rest == "<?xml</alert>"
  {
  }

  /** Why the cut has to be fair: two messages arrive whole, the first chunk ends
      just after the blank of the second, and the second is never handed on. */
  lemma BlankCutLosesMessage(h: string, m: string, part: string, rest: string, events: seq<Arrival>)
    requires m == "<?xml </alert>" && part == "<?xml " && rest == "</alert>"
    requires events == [Arrival(h, m + part), Arrival(h, rest)]
    ensures IsMessage(m) && ReceivedBy(events, h) == m + m
    ensures RunIntake(events).delivered == [Delivery(h, m)]
  {
    SmallParts(m, part, rest);
    TwoAppendsOfSmall(h, m, part, rest, events);
    assert (m + part) + rest == m + (part + rest);
  }

  lemma TwoAppendsOfSmall(h: string, m: string, part: string, rest: string, events: seq<Arrival>)
    requires m == "<?xml </alert>" && part == "<?xml " && "<?xml" + rest == "<?xml</alert>"
    requires events == [Arrival(h, m + part), Arrival(h, rest)]
    ensures IsMessage(m)
    ensures RunIntake(events).delivered == [Delivery(h, m)] && ReceivedBy(events, h) == (m + part) + rest
  {
    SmallMessage(m);
    CutAfterBlank(m, part);
    GluedDoesNotMatch("<?xml" + rest);
    TwoAppends(h, m + part, rest, "<?xml", m, events);
  }
}
