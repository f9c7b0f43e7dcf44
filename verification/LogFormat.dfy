/** What the logger writes for a message, and how it is read back. */
module LogFormat {
  import opened Common

  datatype Level = TRACE | DEBUG | INFO | WARN | ERROR

  /** `uncolored` */
  function Uncolored(l: Level): Text {
    match l
    case ERROR => "[ERROR]\t"
    case WARN => "[WARN]\t"
    case INFO => "[INFO]\t"
    case DEBUG => "[DEBUG]\t"
    case TRACE => "[TRACE]t"
  }

  /** `generate_timestamp`: "%Y-%m-%d %X : " in the "C" locale. */
  type Stamp = t: Text | |t| == 22 && '\n' !in t witness "1970-01-01 00:00:00 : "

  datatype Entry = Entry(level: Level, stamp: Stamp, msg: Text)

  function Format(e: Entry): Text { Uncolored(e.level) + e.stamp + e.msg + "\n" }

  function FormatAll(entries: seq<Entry>): Text {
    if entries == [] then [] else FormatAll(entries[..|entries| - 1]) + Format(entries[|entries| - 1])
  }

  // ------------------------------------------------------------------ the reader

  function LabelOf(line: Text): Option<Level> {
    if "[ERROR]\t" <= line then Some(ERROR)
    else if "[WARN]\t" <= line then Some(WARN)
    else if "[INFO]\t" <= line then Some(INFO)
    else if "[DEBUG]\t" <= line then Some(DEBUG)
    else if "[TRACE]t" <= line then Some(TRACE)
    else None
  }

  /** A label, 22 characters of time, and the message. */
  function ReadLine(line: Text): Option<Entry> {
    match LabelOf(line)
    case None => None
    case Some(l) =>
      var rest := line[if l.INFO? || l.WARN? then 7 else 8..];
      if |rest| < 22 || '\n' in rest[..22] then None else Some(Entry(l, rest[..22], rest[22..]))
  }

  /** What has been read so far, and the line that is not complete yet. */
  datatype Reader = Reader(done: seq<Option<Entry>>, line: Text)

  function Take(r: Reader, c: Octet): Reader {
    if c == '\n' then Reader(r.done + [ReadLine(r.line)], []) else Reader(r.done, r.line + [c])
  }

  function ReadFrom(r: Reader, t: Text): Reader
    decreases |t|
  {
    if t == [] then r else ReadFrom(Take(r, t[0]), t[1..])
  }

  function ReadLog(t: Text): Reader { ReadFrom(Reader([], []), t) }

  // ------------------------------------------------------------------- read back

  predicate OneLine(e: Entry) { '\n' !in e.msg }

  predicate AllOneLine(entries: seq<Entry>) { forall i :: 0 <= i < |entries| ==> OneLine(entries[i]) }

  function Read(entries: seq<Entry>): seq<Option<Entry>> { seq(|entries|, i requires 0 <= i < |entries| => Some(entries[i])) }

  lemma {:induction false} ReadConcat(r: Reader, a: Text, b: Text)
    ensures ReadFrom(r, a + b) == ReadFrom(ReadFrom(r, a), b)
    decreases |a|
  {
    if a == [] {
      assert a + b == b;
    } else {
      assert (a + b)[1..] == a[1..] + b;
      ReadConcat(Take(r, a[0]), a[1..], b);
    }
  }

  lemma {:induction false} ReadUnbroken(r: Reader, t: Text)
    requires '\n' !in t
    ensures ReadFrom(r, t) == Reader(r.done, r.line + t)
    decreases |t|
  {
    if t == [] {
      assert r.line + t == r.line;
    } else {
      ReadUnbroken(Take(r, t[0]), t[1..]);
      assert r.line + [t[0]] + t[1..] == r.line + t;
    }
  }

  /** The label is recognised, whatever follows it. */
  lemma LabelRead(l: Level, rest: Text)
    ensures LabelOf(Uncolored(l) + rest) == Some(l)
    ensures |Uncolored(l)| == if l.INFO? || l.WARN? then 7 else 8
    ensures '\n' !in Uncolored(l)
  {
    var line := Uncolored(l) + rest;
    assert line[1] == Uncolored(l)[1];
  }

  lemma LineRead(e: Entry)
    ensures ReadLine(Uncolored(e.level) + e.stamp + e.msg) == Some(e)
  {
    var line, rest := Uncolored(e.level) + e.stamp + e.msg, e.stamp + e.msg;
    assert line == Uncolored(e.level) + rest;
    LabelRead(e.level, rest);
    assert line[|Uncolored(e.level)|..] == rest;
    assert rest[..22] == e.stamp && rest[22..] == e.msg;
  }

  /** One entry is one line, from which it is recovered. */
  lemma EntryRead(done: seq<Option<Entry>>, e: Entry)
    requires OneLine(e)
    ensures ReadFrom(Reader(done, []), Format(e)) == Reader(done + [Some(e)], [])
  {
    var line := Uncolored(e.level) + e.stamp + e.msg;
    assert Format(e) == line + "\n";
    LabelRead(e.level, "");
    ReadConcat(Reader(done, []), line, "\n");
    ReadUnbroken(Reader(done, []), line);
    assert [] + line == line;
    LineRead(e);
    assert ReadFrom(Reader(done, line), "\n") == Take(Reader(done, line), '\n');
  }

  // ---------------------------------------------------- exactly when it is possible

  function Newlines(t: Text): nat { if t == [] then 0 else (if t[0] == '\n' then 1 else 0) + Newlines(t[1..]) }

  lemma {:induction false} NewlinesConcat(a: Text, b: Text)
    ensures Newlines(a + b) == Newlines(a) + Newlines(b)
  {
    if a == [] {
      assert a + b == b;
    } else {
      assert (a + b)[1..] == a[1..] + b;
      NewlinesConcat(a[1..], b);
    }
  }

  lemma {:induction false} NoNewlines(t: Text)
    ensures Newlines(t) == 0 <==> '\n' !in t
  {
    if t != [] {
      NoNewlines(t[1..]);
      assert t == [t[0]] + t[1..];
    }
  }

  lemma {:induction false} LinesAreNewlines(r: Reader, t: Text)
    ensures |ReadFrom(r, t).done| == |r.done| + Newlines(t)
    decreases |t|
  {
    if t != [] { LinesAreNewlines(Take(r, t[0]), t[1..]); }
  }

  /** An entry ends its line. */
  lemma EntryLines(r: Reader, e: Entry)
    ensures ReadFrom(r, Format(e)).line == []
    ensures |ReadFrom(r, Format(e)).done| == |r.done| + Newlines(e.msg) + 1
  {
    var line := Uncolored(e.level) + e.stamp + e.msg;
    ReadConcat(r, line, "\n");
    var r' := ReadFrom(r, line);
    assert ReadFrom(r', "\n") == Take(r', '\n');
    LinesAreNewlines(r, line);
    LabelRead(e.level, "");
    NoNewlines(Uncolored(e.level));
    NoNewlines(e.stamp);
    NewlinesConcat(Uncolored(e.level) + e.stamp, e.msg);
    NewlinesConcat(Uncolored(e.level), e.stamp);
  }

  /** The line breaks inside the messages. */
  function BreaksIn(entries: seq<Entry>): nat {
    if entries == [] then 0 else BreaksIn(entries[..|entries| - 1]) + Newlines(entries[|entries| - 1].msg)
  }

  lemma {:induction false} NoBreaks(entries: seq<Entry>)
    ensures BreaksIn(entries) == 0 <==> AllOneLine(entries)
  {
    if entries != [] {
      var before, e := entries[..|entries| - 1], entries[|entries| - 1];
      NoBreaks(before);
      NoNewlines(e.msg);
      assert entries == before + [e];
    }
  }

  /** How many lines the entries make: one each, and one for each break. */
  lemma {:induction false} LinesOfAll(entries: seq<Entry>)
    ensures ReadLog(FormatAll(entries)).line == []
    ensures |ReadLog(FormatAll(entries)).done| == |entries| + BreaksIn(entries)
  {
    if entries != [] {
      var before, e := entries[..|entries| - 1], entries[|entries| - 1];
      LinesOfAll(before);
      ReadConcat(Reader([], []), FormatAll(before), Format(e));
      EntryLines(ReadLog(FormatAll(before)), e);
    }
  }

  lemma {:induction false} AllRead(entries: seq<Entry>)
    requires AllOneLine(entries)
    ensures ReadLog(FormatAll(entries)) == Reader(Read(entries), [])
  {
    if entries != [] {
      var before, e := entries[..|entries| - 1], entries[|entries| - 1];
      AllRead(before);
      ReadConcat(Reader([], []), FormatAll(before), Format(e));
      EntryRead(Read(before), e);
      assert Read(entries) == Read(before) + [Some(e)];
    }
  }

  /** The log is read back entry by entry - labels, times and messages, in order - if and
      only if no message has a line break in it; in any case it ends with a whole line. */
  lemma ReadBackIff(entries: seq<Entry>)
    ensures ReadLog(FormatAll(entries)).line == []
    ensures ReadLog(FormatAll(entries)).done == Read(entries) <==> AllOneLine(entries)
  {
    LinesOfAll(entries);
    NoBreaks(entries);
    if AllOneLine(entries) { AllRead(entries); }
  }
}
