/** The alert intake of libs/xmlhandler: cutting two byte streams, which arrive in
    arbitrary chunks, into alert messages.
 */
module AlertFraming {
  import opened Common

  predicate AllSpace(s: string) { forall i :: 0 <= i < |s| ==> IsSpace(s[i]) }

  // ------------------------------------------- <\?xml\s.*?<\/alert>, leftmost

  const OPENING := "<?xml"
  const CLOSING := "</alert>"

  predicate OpenAt(s: string, i: nat) {
    i + 6 <= |s| && s[i..i + 5] == OPENING && IsSpace(s[i + 5])
  }

  predicate CloseAt(s: string, i: nat) {
    i + 8 <= |s| && s[i..i + 8] == CLOSING
  }

  function FindOpen(s: string, i: nat): int
    decreases |s| - i
  {
    if i >= |s| then -1 else if OpenAt(s, i) then i else FindOpen(s, i + 1)
  }

  function FindClose(s: string, i: nat): int
    decreases |s| - i
  {
    if i >= |s| then -1 else if CloseAt(s, i) then i else FindClose(s, i + 1)
  }

  /** Where a match starts and ends. */
  datatype Span = Span(start: nat, end: nat)

  function FirstMatch(s: string): Option<Span> {
    var i := FindOpen(s, 0);
    if i < 0 then None else
    var j := FindClose(s, i + 6);
    if j < 0 then None else Some(Span(i, j + 8))
  }

  // ------------------------------------------------------------------ trimming

  function TrimLeft(s: string): string {
    if s != [] && IsSpace(s[0]) then TrimLeft(s[1..]) else s
  }

  function TrimRight(s: string): string {
    if s != [] && IsSpace(s[|s| - 1]) then TrimRight(s[..|s| - 1]) else s
  }

  function Trim(s: string): string { TrimRight(TrimLeft(s)) }

  function Erase(s: string, m: Span): string
    requires m.start <= m.end <= |s|
  {
    s[..m.start] + s[m.end..]
  }

  lemma FindOpenSpec(s: string, i: nat)
    ensures var r := FindOpen(s, i);
      && (r < 0 ==> forall k :: i <= k < |s| ==> !OpenAt(s, k))
      && (r >= 0 ==> i <= r < |s| && OpenAt(s, r) && forall k :: i <= k < r ==> !OpenAt(s, k))
    decreases |s| - i
  {
    if i < |s| && !OpenAt(s, i) { FindOpenSpec(s, i + 1); }
  }

  lemma FindCloseSpec(s: string, i: nat)
    ensures var r := FindClose(s, i);
      && (r < 0 ==> forall k :: i <= k < |s| ==> !CloseAt(s, k))
      && (r >= 0 ==> i <= r < |s| && CloseAt(s, r) && forall k :: i <= k < r ==> !CloseAt(s, k))
    decreases |s| - i
  {
    if i < |s| && !CloseAt(s, i) { FindCloseSpec(s, i + 1); }
  }

  /** A stretch of text that the pattern can match: an XML declaration's opening and a
      blank at its start, the end tag of an alert at its end. */
  predicate Matches(s: string, m: Span) {
    && m.start + 14 <= m.end <= |s|
    && s[m.start..m.start + 5] == "<?xml" && s[m.start + 5] as int in {32, 9, 10, 11, 12, 13}
    && s[m.end - 8..m.end] == "</alert>"
  }

  lemma MatchesByTests(s: string, m: Span)
    ensures Matches(s, m) <==> OpenAt(s, m.start) && m.start + 14 <= m.end && CloseAt(s, m.end - 8)
  {
    if m.start + 5 < |s| { SpacesByCode(s[m.start + 5]); }
  }

  /** The match is the leftmost one, and the shortest from there; none means that no stretch matches. */
  lemma FirstMatchSpec(s: string)
    ensures match FirstMatch(s)
      case Some(m) =>
        && Matches(s, m)
        && (forall m' :: Matches(s, m') ==> m.start <= m'.start)
        && (forall m' :: Matches(s, m') && m'.start == m.start ==> m.end <= m'.end)
      case None => forall m' :: !Matches(s, m')
  {
    FindOpenSpec(s, 0);
    var i := FindOpen(s, 0);
    if i >= 0 { FindCloseSpec(s, i + 6); }
    if m :| FirstMatch(s) == Some(m) { MatchesByTests(s, m); }
    forall m' | Matches(s, m')
      ensures FirstMatch(s).Some? && FirstMatch(s).value.start <= m'.start
      ensures FirstMatch(s).value.start == m'.start ==> FirstMatch(s).value.end <= m'.end
    {
      MatchesByTests(s, m');
      assert CloseAt(s, m'.end - 8) && i + 6 <= m'.end - 8 < |s|;
    }
  }

  // ---------------------------------------------------------------- the object

  datatype Delivery = Delivery(host: string, message: string)

  /** The intake as a value: the buffers, the queue of matches, and what has been
      handed on to the XML reader so far. */
  datatype Intake = Intake(buffers: map<string, string>, matches: seq<string>, delivered: seq<Delivery>)

  function BufferOf(buffers: map<string, string>, host: string): string {
    if host in buffers then buffers[host] else ""
  }

  /** The buffer after `find_match`, for at most one match. */
  function Unmatched(s: string): string {
    match FirstMatch(s)
    case None => s
    case Some(m) => FirstMatchSpec(s); Trim(Erase(s, m))
  }

  function Matched(s: string): seq<string> {
    match FirstMatch(s)
    case None => []
    case Some(m) => FirstMatchSpec(s); [s[m.start..m.end]]
  }

  /** The documented limit of the pattern: one message per append. */
  predicate AtMostOneMatch(s: string) { FirstMatch(Unmatched(s)).None? }

  /** One call of append: grow the buffer, queue a match, hand one match on. */
  function Receive(t: Intake, host: string, chunk: string): Intake {
    var s := BufferOf(t.buffers, host) + chunk;
    var queue := t.matches + Matched(s);
    Intake(t.buffers[host := Unmatched(s)],
           if queue == [] then [] else queue[1..],
           t.delivered + if queue == [] then [] else [Delivery(host, queue[0])])
  }

  class XmlHandler {
    var fullBuffer: map<string, string>
    var matches: seq<string>
    var delivered: seq<Delivery>

    function View(): Intake
      reads this
    {
      Intake(fullBuffer, matches, delivered)
    }

    constructor ()
      ensures View() == Intake(map[], [], [])
    {
      fullBuffer, matches, delivered := map[], [], [];
    }

    method FindMatch(host: string)
      requires host in fullBuffer && AtMostOneMatch(fullBuffer[host])
      modifies this`fullBuffer, this`matches
      ensures fullBuffer == old(fullBuffer)[host := Unmatched(old(fullBuffer[host]))]
      ensures matches == old(matches) + Matched(old(fullBuffer[host]))
    {
      ghost var before := fullBuffer[host];
      ghost var rounds := 1;
      var found := FirstMatch(fullBuffer[host]);
      while found.Some?
        invariant host in fullBuffer && found == FirstMatch(fullBuffer[host])
        invariant rounds == 1 ==> fullBuffer == old(fullBuffer) && matches == old(matches)
        invariant rounds == 0 ==> found.None? && FirstMatch(before).Some?
        invariant rounds == 0 ==> fullBuffer == old(fullBuffer)[host := Unmatched(before)] && matches == old(matches) + Matched(before)
        invariant 0 <= rounds <= 1
        decreases rounds
      {
        var m := found.value;
        FirstMatchSpec(fullBuffer[host]);
        matches := matches + [fullBuffer[host][m.start..m.end]];
        fullBuffer := fullBuffer[host := Erase(fullBuffer[host], m)];
        fullBuffer := fullBuffer[host := Trim(fullBuffer[host])];
        found := FirstMatch(fullBuffer[host]);
        rounds := 0;
      }
      assert rounds == 1 ==> fullBuffer == old(fullBuffer)[host := before];
      assert matches + [] == matches;
    }

    /** The head of `process_matches`: at most one match leaves the queue per call. */
    method ProcessMatches(host: string)
      modifies this`matches, this`delivered
      ensures old(matches) == [] ==> matches == [] && delivered == old(delivered)
      ensures old(matches) != [] ==>
        matches == old(matches)[1..] && delivered == old(delivered) + [Delivery(host, old(matches)[0])]
    {
      if matches == [] {
        return;
      }
      var y := matches[0];
      matches := matches[1..];
      delivered := delivered + [Delivery(host, y)];
    }

    method Append(host: string, tempBuffer: seq<char>, size: nat)
      requires size <= |tempBuffer|
      requires AtMostOneMatch(BufferOf(fullBuffer, host) + tempBuffer[..size])
      modifies this
      ensures View() == Receive(old(View()), host, tempBuffer[..size])
    {
      fullBuffer := fullBuffer[host := BufferOf(fullBuffer, host) + tempBuffer[..size]];
      FindMatch(host);
      ProcessMatches(host);
      assert delivered + [] == delivered;
    }
  }
}
