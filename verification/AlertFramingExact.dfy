/** Exactly when chunk boundaries do not matter: the converse of the framing theorem. */
module AlertFramingExact {
  import opened Common
  import opened AlertFraming
  import opened AlertFramingTheorems

  // ------------------------------------------------------------- what is claimed

  /** The n-th arrival carries on its server's feed and completes at most one message. */
  predicate Carries(feeds: map<string, Feed>, events: seq<Arrival>, n: nat)
    requires n < |events|
  {
    var h := events[n].host;
    && h in feeds
    && ReceivedBy(events[..n + 1], h) <= TextOf(feeds[h])
    && Completed(feeds[h], |ReceivedBy(events[..n + 1], h)|) <= Completed(feeds[h], |ReceivedBy(events[..n], h)|) + 1
  }

  /** The servers send their feeds, at most one message completed per chunk; where the
      chunks are cut is left open. */
  predicate Sent(feeds: map<string, Feed>, events: seq<Arrival>) {
    forall n: nat :: n < |events| ==> Carries(feeds, events, n)
  }

  ghost predicate AllArrived(feeds: map<string, Feed>, events: seq<Arrival>) {
    forall h :: h in feeds ==> ReceivedBy(events, h) == TextOf(feeds[h])
  }

  /** What a host's complete messages are, and what has been handed on, agree. */
  predicate InStep(f: Feed, received: string, delivered: seq<string>) {
    var k := Completed(f, |received|);
    k <= |f.items| && delivered == Messages(f.items[..k])
  }

  ghost predicate ServedAfter(feeds: map<string, Feed>, events: seq<Arrival>) {
    forall h :: h in feeds ==> InStep(feeds[h], ReceivedBy(events, h), DeliveredTo(RunIntake(events).delivered, h))
  }

  ghost predicate ServedAt(feeds: map<string, Feed>, events: seq<Arrival>, n: nat) {
    n <= |events| && ServedAfter(feeds, events[..n])
  }

  /** At every moment each server's complete messages have been handed on as sent, and nothing else. */
  ghost predicate AlwaysServed(feeds: map<string, Feed>, events: seq<Arrival>) {
    forall n: nat :: n <= |events| ==> ServedAt(feeds, events, n)
  }

  // ---------------------------------------------------------- a damaged message

  lemma OpenInsideClose(s: string, i: nat, j: nat)
    requires OpenAt(s, i) && CloseAt(s, j)
    ensures i + 6 <= j || j + 8 <= i
  {
    assert s[i..i + 5] == OPENING && s[j..j + 8] == CLOSING;
    assert s[i] == '<' && s[i + 1] == '?' && s[i + 2] == 'x' && s[i + 3] == 'm' && s[i + 4] == 'l';
    assert s[j] == '<';
    forall k | 0 <= k < 8 ensures s[j + k] == CLOSING[k] { assert s[j..j + 8][k] == s[j + k]; }
  }

  lemma NoBlankInClose(m: string, k: nat)
    requires IsMessage(m) && 0 < k <= |m| && IsSpace(m[k - 1])
    ensures k + 8 <= |m| && CloseAt(m, |m| - 8)
  {
    FirstMatchSpec(m);
    MatchesByTests(m, Span(0, |m|));
    assert m[|m| - 8..] == CLOSING;
    forall i | |m| - 8 <= i < |m| ensures !IsSpace(m[i]) { assert m[i] == CLOSING[i - (|m| - 8)]; }
  }

  /** A message whose first k characters, of which the last is a blank, have become
      fewer: whatever follows, it is not matched as it was sent. */
  lemma DamagedDoesNotMatch(m: string, k: nat, d: string, b: string)
    requires IsMessage(m) && 0 < k <= |m| && IsSpace(m[k - 1]) && |d| < k
    requires FirstMatch(b).None?
    ensures Matched(d + m[k..] + b) != [m]
  {
    var s, end := d + m[k..] + b, |d| + |m| - k;
    NoBlankInClose(m, k);
    assert s[end - 8..end] == m[|m| - 8..];
    FirstMatchSpec(s);
    if x :| FirstMatch(s) == Some(x) {
      MatchesByTests(s, x);
      MatchesByTests(s, Span(x.start, end));
      OpenInsideClose(s, x.start, end - 8);
      if x.start + 6 <= end - 8 {
        assert Matches(s, Span(x.start, end));
        assert |s[x.start..x.end]| < |m|;
      } else {
        MatchInTail(s, b, end, x);
      }
    }
  }

  /** A match that starts after w is a match of what follows w. */
  lemma MatchShift(w: string, b: string, x: Span)
    requires Matches(w + b, x) && |w| <= x.start
    ensures Matches(b, Span(x.start - |w|, x.end - |w|))
  {
    var i, j := x.start - |w|, x.end - 8 - |w|;
    MatchesByTests(w + b, x);
    MatchesByTests(b, Span(i, j + 8));
    assert OpenAt(b, i) by { CloseShift(w, b, i); }
    assert CloseAt(b, j) by { CloseShift(w, b, j); }
  }

  lemma MatchInTail(s: string, b: string, n: nat, x: Span)
    requires n <= |s| && b == s[n..] && Matches(s, x) && n <= x.start
    ensures FirstMatch(b).Some?
  {
    assert s == s[..n] + b;
    MatchShift(s[..n], b, x);
    FirstMatchSpec(b);
  }

  // ------------------------------------------------------------ as the run goes on

  lemma Prefixes(events: seq<Arrival>, n: nat)
    requires n < |events|
    ensures events[..n + 1][..n] == events[..n] && events[..n + 1] == events[..n] + [events[n]]
  {
  }

  lemma {:induction false} NothingQueued(events: seq<Arrival>)
    ensures RunIntake(events).matches == []
  {
    if events != [] { NothingQueued(events[..|events| - 1]); }
  }

  /** What one arrival hands on, to its host. */
  lemma ArrivalDelivers(events: seq<Arrival>, n: nat)
    requires n < |events|
    ensures var t, t', h := RunIntake(events[..n]), RunIntake(events[..n + 1]), events[n].host;
      var s := BufferOf(t.buffers, h) + events[n].chunk;
      && BufferOf(t'.buffers, h) == Unmatched(s)
      && DeliveredTo(t'.delivered, h) == DeliveredTo(t.delivered, h) + Matched(s)
  {
    Prefixes(events, n);
    NothingQueued(events[..n]);
    var t, h := RunIntake(events[..n]), events[n].host;
    var s := BufferOf(t.buffers, h) + events[n].chunk;
    assert [] + Matched(s) == Matched(s);
    if Matched(s) == [] {
      assert t.delivered + [] == t.delivered;
    } else {
      DeliveredSnoc(t.delivered, Delivery(h, Matched(s)[0]), h);
    }
  }

  lemma OtherArrival(events: seq<Arrival>, n: nat, h: string)
    requires n < |events| && events[n].host != h
    ensures ReceivedBy(events[..n + 1], h) == ReceivedBy(events[..n], h)
    ensures BufferOf(RunIntake(events[..n + 1]).buffers, h) == BufferOf(RunIntake(events[..n]).buffers, h)
  {
    Prefixes(events, n);
    ReceivedFromOther(events[..n + 1], h);
    FramingOtherHost(RunIntake(events[..n]), events[n].host, events[n].chunk, h);
  }

  lemma ChunkArrives(feeds: map<string, Feed>, events: seq<Arrival>, n: nat)
    requires n < |events| && Carries(feeds, events, n)
    ensures var h := events[n].host;
      var r, r' := ReceivedBy(events[..n], h), ReceivedBy(events[..n + 1], h);
      |r| <= |r'| <= |TextOf(feeds[h])| && events[n].chunk == TextOf(feeds[h])[|r|..|r'|]
  {
    Prefixes(events, n);
    var h := events[n].host;
    ChunkOf(ReceivedBy(events[..n], h), events[n].chunk, TextOf(feeds[h]));
  }

  lemma SpaceFirst(a: string, rest: string)
    requires AllSpace(a)
    ensures a != "" ==> a + rest != "" && IsSpace((a + rest)[0])
  {
  }

  /** What is pending grows into the message and what follows it, when it is completed. */
  lemma PendingCompleted(f: Feed, n: nat, n': nat) returns (b: string)
    requires GoodFeed(f) && n <= n' <= |TextOf(f)| && Completed(f, n') == Completed(f, n) + 1 && Pending(f, n) != ""
    ensures Completed(f, n) < |f.items| && FirstMatch(b).None?
    ensures Pending(f, n) + TextOf(f)[n..n'] == f.items[Completed(f, n)].message + b
  {
    var a, c := OneCompleted(f, n, n');
    b := c;
    var p, m := Pending(f, n), f.items[Completed(f, n)].message;
    PendingDoesNotMatch(f, n);
    assert (p + TextOf(f)[n..n'])[0] == p[0];
    SpaceFirst(a, m + b);
    assert "" + (m + b) == m + b;
    PendingAloneDoesNotMatch(b, f, n');
  }

  /** The buffer holds d in place of the first k characters of what is pending. */
  predicate Damaged(f: Feed, n: nat, buffer: string, c: nat, k: nat, d: string) {
    var p := Pending(f, n);
    Completed(f, n) == c && 0 < k <= |p| && IsSpace(p[k - 1]) && |d| < k && buffer == d + p[k..]
  }

  lemma DropFirst(p: string, x: string, k: nat, d: string)
    requires k <= |p|
    ensures d + p[k..] + x == d + (p + x)[k..]
  {
  }

  /** One more chunk of the damaged message: when it is handed on as it should be, it
      was not completed, and is as damaged as before. */
  lemma DamageStays(f: Feed, n: nat, n': nat, buffer: string, c: nat, k: nat, d: string)
    requires GoodFeed(f) && n <= n' <= |TextOf(f)| && Completed(f, n) <= Completed(f, n') <= c + 1
    requires Damaged(f, n, buffer, c, k, d) && c < |f.items|
    requires Matched(buffer + TextOf(f)[n..n']) == if Completed(f, n') == c then [] else [f.items[c].message]
    ensures Damaged(f, n', Unmatched(buffer + TextOf(f)[n..n']), c, k, d)
  {
    var p, x, s := Pending(f, n), TextOf(f)[n..n'], buffer + TextOf(f)[n..n'];
    DropFirst(p, x, k, d);
    if Completed(f, n') == c {
      PendingGrows(f, n, n');
    } else {
      NotAsSent(f, n, n', buffer, c, k, d);
    }
  }

  /** When the damaged message is complete, it is not matched as it was sent. */
  lemma NotAsSent(f: Feed, n: nat, n': nat, buffer: string, c: nat, k: nat, d: string)
    requires GoodFeed(f) && n <= n' <= |TextOf(f)| && Completed(f, n') == c + 1
    requires Damaged(f, n, buffer, c, k, d)
    ensures c < |f.items| && Matched(buffer + TextOf(f)[n..n']) != [f.items[c].message]
  {
    var p, x := Pending(f, n), TextOf(f)[n..n'];
    var b := PendingCompleted(f, n, n');
    var m := f.items[c].message;
    PendingIsPart(f, n);
    DropFirst(p, x, k, d);
    DropFirst(m, b, k, d);
    assert m[k - 1] == p[k - 1];
    DamagedDoesNotMatch(m, k, d, b);
  }

  lemma CancelLeft(a: seq<string>, b: seq<string>, c: seq<string>)
    requires a + b == a + c
    ensures b == c
  {
    assert (a + b)[|a|..] == b && (a + c)[|a|..] == c;
  }

  /** How one arrival of a host changes what has been handed on, when all is in step. */
  lemma StepInStep(f: Feed, r: string, r': string, ds: seq<string>, more: seq<string>)
    requires InStep(f, r, ds) && InStep(f, r', ds + more)
    requires Completed(f, |r|) <= Completed(f, |r'|) <= Completed(f, |r|) + 1
    ensures more == if Completed(f, |r'|) == Completed(f, |r|) then [] else [f.items[Completed(f, |r|)].message]
  {
    var k := Completed(f, |r|);
    if Completed(f, |r'|) == k {
      assert ds + more == ds + [];
      CancelLeft(ds, more, []);
    } else {
      MessagesSnoc(f.items, k);
      CancelLeft(ds, more, [f.items[k].message]);
    }
  }

  /** The host's message is damaged after n arrivals. */
  predicate DamagedAfter(f: Feed, events: seq<Arrival>, h: string, c: nat, k: nat, d: string) {
    Damaged(f, |ReceivedBy(events, h)|, BufferOf(RunIntake(events).buffers, h), c, k, d)
  }

  lemma DamageGoesOn(feeds: map<string, Feed>, events: seq<Arrival>, i: nat, h: string, c: nat, k: nat, d: string)
    requires Sent(feeds, events) && AlwaysServed(feeds, events) && i < |events|
    requires h == events[i].host && h in feeds && GoodFeed(feeds[h]) && DamagedAfter(feeds[h], events[..i], h, c, k, d)
    ensures DamagedAfter(feeds[h], events[..i + 1], h, c, k, d)
  {
    var f, r, r' := feeds[h], ReceivedBy(events[..i], h), ReceivedBy(events[..i + 1], h);
    var buffer := BufferOf(RunIntake(events[..i]).buffers, h);
    assert Carries(feeds, events, i);
    ChunkArrives(feeds, events, i);
    ArrivalDelivers(events, i);
    CompletedMonotone(f, |r|, |r'|);
    assert ServedAt(feeds, events, i) && ServedAt(feeds, events, i + 1);
    StepInStep(f, r, r', DeliveredTo(RunIntake(events[..i]).delivered, h), Matched(buffer + events[i].chunk));
    PendingIsPart(f, |r|);
    DamageStays(f, |r|, |r'|, buffer, c, k, d);
  }

  lemma DamageUntouched(f: Feed, events: seq<Arrival>, i: nat, h: string, c: nat, k: nat, d: string)
    requires i < |events| && h != events[i].host && DamagedAfter(f, events[..i], h, c, k, d)
    ensures DamagedAfter(f, events[..i + 1], h, c, k, d)
  {
    OtherArrival(events, i, h);
  }

  lemma DamageStep(feeds: map<string, Feed>, events: seq<Arrival>, i: nat, h: string, c: nat, k: nat, d: string)
    requires Sent(feeds, events) && AlwaysServed(feeds, events) && i < |events|
    requires h in feeds && GoodFeed(feeds[h]) && DamagedAfter(feeds[h], events[..i], h, c, k, d)
    ensures DamagedAfter(feeds[h], events[..i + 1], h, c, k, d)
  {
    if events[i].host == h {
      DamageGoesOn(feeds, events, i, h, c, k, d);
    } else {
      DamageUntouched(feeds[h], events, i, h, c, k, d);
    }
  }

  /** Once damaged, a message is never completed in a run in which all is in step. */
  lemma {:induction false} NeverCompleted(feeds: map<string, Feed>, events: seq<Arrival>, n0: nat, n: nat, h: string, c: nat, k: nat, d: string)
    requires Sent(feeds, events) && AlwaysServed(feeds, events) && n0 <= n <= |events|
    requires h in feeds && GoodFeed(feeds[h]) && DamagedAfter(feeds[h], events[..n0], h, c, k, d)
    ensures DamagedAfter(feeds[h], events[..n], h, c, k, d)
    decreases n - n0
  {
    if n0 < n {
      DamageStep(feeds, events, n0, h, c, k, d);
      NeverCompleted(feeds, events, n0 + 1, n, h, c, k, d);
    }
  }

  // ------------------------------------------------------------------ the theorem

  /** The first cut after a blank damages the message it falls in. */
  lemma BlankCutDamages(buffer: string, f: Feed, n: nat, n': nat) returns (d: string)
    requires GoodFeed(f) && n <= n' <= |TextOf(f)| && Completed(f, n') == Completed(f, n) + 1
    requires SpaceThen(buffer, Pending(f, n)) && BlankCut(f, n')
    ensures Damaged(f, n', Unmatched(buffer + TextOf(f)[n..n']), Completed(f, n'), |Pending(f, n')|, d)
  {
    var p := Pending(f, n');
    var w := CompletingSplit(buffer, f, n, n');
    PendingDoesNotMatch(f, n');
    TrimLeftSpace(w, p);
    TrimRightLength(p);
    d := TrimRight(p);
    assert d + p[|p|..] == d;
  }

  lemma CutDamages(feeds: map<string, Feed>, events: seq<Arrival>, i: nat, h: string, n: nat, n': nat) returns (d: string)
    requires (forall h :: h in feeds ==> GoodFeed(feeds[h])) && i < |events|
    requires Carries(feeds, events, i) && Orderly(feeds, events[..i])
    requires h == events[i].host && n == |ReceivedBy(events[..i], h)| && n' == |ReceivedBy(events[..i + 1], h)|
    requires Completed(feeds[h], n') == Completed(feeds[h], n) + 1 && BlankCut(feeds[h], n')
    ensures DamagedAfter(feeds[h], events[..i + 1], h, Completed(feeds[h], n'), |Pending(feeds[h], n')|, d)
  {
    ChunkArrives(feeds, events, i);
    ArrivalDelivers(events, i);
    Framing(feeds, events[..i]);
    var buffer := BufferOf(RunIntake(events[..i]).buffers, h);
    assert SpaceThen(buffer, Pending(feeds[h], n)) by {
      assert HostOk(feeds, events[..i], RunIntake(events[..i]), h);
    }
    d := BlankCutDamages(buffer, feeds[h], n, n');
  }

  lemma WholeNotDamaged(f: Feed, events: seq<Arrival>, h: string, c: nat, k: nat, d: string)
    requires ReceivedBy(events, h) == TextOf(f)
    ensures !DamagedAfter(f, events, h, c, k, d)
  {
    AllCompleted(f);
    if Pending(f, |TextOf(f)|) != "" { PendingIsPart(f, |TextOf(f)|); }
  }

  lemma DamageShows(feeds: map<string, Feed>, events: seq<Arrival>, n: nat, h: string, c: nat, k: nat, d: string)
    requires Sent(feeds, events) && AllArrived(feeds, events) && n <= |events|
    requires h in feeds && GoodFeed(feeds[h]) && DamagedAfter(feeds[h], events[..n], h, c, k, d)
    ensures !AlwaysServed(feeds, events)
  {
    WholeNotDamaged(feeds[h], events, h, c, k, d);
    assert events[..|events|] == events;
    if AlwaysServed(feeds, events) { NeverCompleted(feeds, events, n, |events|, h, c, k, d); }
  }

  /** A cut after a blank, in a run that was orderly before, shows sooner or later. */
  lemma BlankCutShows(feeds: map<string, Feed>, events: seq<Arrival>, i: nat, h: string, n: nat, n': nat)
    requires forall h :: h in feeds ==> GoodFeed(feeds[h])
    requires Sent(feeds, events) && AllArrived(feeds, events) && i < |events| && Orderly(feeds, events[..i])
    requires h == events[i].host && n == |ReceivedBy(events[..i], h)| && n' == |ReceivedBy(events[..i + 1], h)|
    requires h in feeds && Completed(feeds[h], n') == Completed(feeds[h], n) + 1 && BlankCut(feeds[h], n')
    ensures !AlwaysServed(feeds, events)
  {
    assert Carries(feeds, events, i);
    var d := CutDamages(feeds, events, i, h, n, n');
    DamageShows(feeds, events, i + 1, h, Completed(feeds[h], n'), |Pending(feeds[h], n')|, d);
  }

  lemma OrderlyNext(feeds: map<string, Feed>, events: seq<Arrival>, i: nat)
    requires i < |events| && Orderly(feeds, events[..i]) && Carries(feeds, events, i)
    requires var h := events[i].host; FairCut(feeds[h], |ReceivedBy(events[..i], h)|, |ReceivedBy(events[..i + 1], h)|)
    ensures Orderly(feeds, events[..i + 1])
  {
    Prefixes(events, i);
  }

  lemma ServedStep(feeds: map<string, Feed>, events: seq<Arrival>, i: nat)
    requires forall h :: h in feeds ==> GoodFeed(feeds[h])
    requires Sent(feeds, events) && AllArrived(feeds, events) && AlwaysServed(feeds, events)
    requires i < |events| && Orderly(feeds, events[..i])
    ensures Orderly(feeds, events[..i + 1])
  {
    assert Carries(feeds, events, i);
    var h := events[i].host;
    var n, n' := |ReceivedBy(events[..i], h)|, |ReceivedBy(events[..i + 1], h)|;
    if Completed(feeds[h], n') == Completed(feeds[h], n) + 1 && BlankCut(feeds[h], n') {
      BlankCutShows(feeds, events, i, h, n, n');
    } else {
      OrderlyNext(feeds, events, i);
    }
  }

  lemma {:induction false} ServedMeansOrderly(feeds: map<string, Feed>, events: seq<Arrival>, n: nat)
    requires forall h :: h in feeds ==> GoodFeed(feeds[h])
    requires Sent(feeds, events) && AllArrived(feeds, events) && AlwaysServed(feeds, events) && n <= |events|
    ensures Orderly(feeds, events[..n])
    decreases n
  {
    if n > 0 {
      ServedMeansOrderly(feeds, events, n - 1);
      ServedStep(feeds, events, n - 1);
      assert n - 1 + 1 == n;
    }
  }

  lemma OrderlyServedNow(feeds: map<string, Feed>, events: seq<Arrival>)
    requires (forall h :: h in feeds ==> GoodFeed(feeds[h])) && Orderly(feeds, events)
    ensures ServedAfter(feeds, events)
  {
    Framing(feeds, events);
    forall h | h in feeds ensures InStep(feeds[h], ReceivedBy(events, h), DeliveredTo(RunIntake(events).delivered, h)) {
      assert HostOk(feeds, events, RunIntake(events), h);
    }
  }

  lemma {:induction false} OrderlyPrefix(feeds: map<string, Feed>, events: seq<Arrival>, n: nat)
    requires Orderly(feeds, events) && n <= |events|
    ensures Orderly(feeds, events[..n])
    decreases |events|
  {
    if n == |events| {
      assert events[..n] == events;
    } else {
      var before := events[..|events| - 1];
      assert before[..n] == events[..n];
      OrderlyPrefix(feeds, before, n);
    }
  }

  /** Exactly when every message is handed on as sent, in order and as soon as it is
      complete: for feeds that arrive as a whole, at most one message completed per
      chunk, if and only if no chunk that completes a message ends just after a blank
      inside the next one. */
  lemma FramingIff(feeds: map<string, Feed>, events: seq<Arrival>)
    requires forall h :: h in feeds ==> GoodFeed(feeds[h])
    requires Sent(feeds, events) && AllArrived(feeds, events)
    ensures AlwaysServed(feeds, events) <==> Orderly(feeds, events)
  {
    if AlwaysServed(feeds, events) {
      ServedMeansOrderly(feeds, events, |events|);
      assert events[..|events|] == events;
    }
    if Orderly(feeds, events) {
      forall n: nat | n <= |events| ensures ServedAt(feeds, events, n) {
        OrderlyPrefix(feeds, events, n);
        OrderlyServedNow(feeds, events[..n]);
      }
    }
  }
}
