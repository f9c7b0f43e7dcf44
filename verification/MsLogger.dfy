/** The buffered, rotating log of libs/mslogger.

    The locks are left out: every public operation holds mutBuffer_ throughout.
    The directory starts empty and nothing else writes to it.
 */
module MsLogger {
  import opened Common
  import opened Decimal
  import opened LogFormat

  const ROTATE_SIZE: nat := 1 * 1024 * 1024
  const INDEX_RANGE: nat := 65536  // fileindex_ has 16 bits
  const EOF: int := -1
  const DATE_LENGTH: nat := 10     // "%Y-%m-%d"

  /** Below this many bytes the 16-bit file index cannot wrap around. */
  const CAPACITY: nat := 65_535 * 1_048_577

  function Suffix(l: Level): string {
    match l
    case TRACE => ".trace.log"
    case DEBUG => ".debug.log"
    case INFO => ".info.log"
    case WARN => ".warn.log"
    case ERROR => ".error.log"
  }

  // -------------------------------------------------------------- file names

  /** The date and the index that a file name is made of. */
  datatype LogName = LogName(date: string, index: nat)

  function Numbered(index: nat): string { (if index > 9 then "_" else "_0") + Digits(index) }

  /** `generate_filename`. */
  function Path(dir: string, name: LogName, level: Level): string {
    dir + "/" + (name.date + Numbered(name.index) + Suffix(level))
  }

  lemma NumberedValue(index: nat)
    ensures Value(Numbered(index)[1..]) == index
  {
    ValueOfDigits(index);
    if index > 9 {
      assert Numbered(index)[1..] == Digits(index);
    } else {
      LeadingZero(Digits(index));
      assert Numbered(index)[1..] == "0" + Digits(index);
    }
  }

  lemma Middle(a: string, b: string, c: string)
    ensures (a + b + c)[|a|..|a| + |b|] == b
  {
  }

  /** Names and paths are the same thing: equal paths come from equal names. */
  lemma PathInjective(dir: string, m: LogName, n: LogName, level: Level)
    requires |m.date| == |n.date| && Path(dir, m, level) == Path(dir, n, level)
    ensures m == n
  {
    TailInjective(dir + "/", m.date + Numbered(m.index) + Suffix(level), n.date + Numbered(n.index) + Suffix(level));
    DateFirst(m, n, Suffix(level));
    NumberedValue(m.index);
    NumberedValue(n.index);
  }

  function Extension(level: Level): string {
    if level.TRACE? then ".trace.log"
    else if level.DEBUG? then ".debug.log"
    else if level.INFO? then ".info.log"
    else if level.WARN? then ".warn.log"
    else ".error.log"
  }

  /** What a path says: directory, date, a numeral of at least two digits for the
      index, and the level. */
  lemma PathReads(dir: string, name: LogName, level: Level) returns (num: string)
    ensures Path(dir, name, level) == dir + "/" + (name.date + ("_" + num) + Extension(level))
    ensures |num| >= 2 && Value(num) == name.index && IsNumeral(num)
    ensures |num| > 2 ==> num[0] != '0'
  {
    var digits := Digits(name.index);
    ValueOfDigits(name.index);
    NumeralShape(name.index);
    num := if name.index > 9 then digits else "0" + digits;
    LeadingZero(digits);
    assert Numbered(name.index) == "_" + num;
    assert Suffix(level) == Extension(level);
  }

  lemma TailInjective(a: string, b: string, c: string)
    requires a + b == a + c
    ensures b == c
  {
    assert b == (a + b)[|a|..] && c == (a + c)[|a|..];
  }

  lemma DateFirst(m: LogName, n: LogName, suffix: string)
    requires |m.date| == |n.date| && m.date + Numbered(m.index) + suffix == n.date + Numbered(n.index) + suffix
    ensures m.date == n.date && Numbered(m.index) == Numbered(n.index)
  {
    var a, b := m.date + Numbered(m.index) + suffix, n.date + Numbered(n.index) + suffix;
    assert a[..|m.date|] == m.date && b[..|n.date|] == n.date;
    Middle(m.date, Numbered(m.index), suffix);
    Middle(n.date, Numbered(n.index), suffix);
    assert |Numbered(m.index)| == |Numbered(n.index)|;
  }

  /** `generate_date`: whatever day it is when it is called. */
  method Today() returns (date: string)
    ensures |date| == DATE_LENGTH
  {
    assert |"1970-01-01"| == DATE_LENGTH;
    date :| |date| == DATE_LENGTH;
  }

  /** The 16-bit increment of fileindex_. */
  function NextIndex(i: nat): nat { (i + 1) % INDEX_RANGE }

  /** It wraps around after 65535, and only then. */
  lemma IndexWraps(i: nat)
    requires i <= 65_535
    ensures NextIndex(i) == if i == 65_535 then 0 else i + 1
  {
  }

  // ---------------------------------------------------------- the log directory

  datatype LogFile = LogFile(name: LogName, text: Text)

  /** The directory, oldest file first. */
  type Directory = seq<LogFile>

  /** Where a file is in the directory, or -1. */
  function Find(files: Directory, name: LogName): (k: int)
    ensures -1 <= k < |files|
    ensures k >= 0 ==> files[k].name == name
    ensures k < 0 ==> forall i :: 0 <= i < |files| ==> files[i].name != name
  {
    if files == [] then -1
    else if files[|files| - 1].name == name then |files| - 1
    else Find(files[..|files| - 1], name)
  }

  predicate Exists(files: Directory, name: LogName) { Find(files, name) >= 0 }

  function SizeOf(files: Directory, name: LogName): nat
    requires Exists(files, name)
  {
    |files[Find(files, name)].text|
  }

  /** Opening for appending: creates the file when it is missing. */
  function Touch(files: Directory, name: LogName): Directory {
    if Exists(files, name) then files else files + [LogFile(name, [])]
  }

  function Append(files: Directory, name: LogName, t: Text): Directory
    requires Exists(files, name)
  {
    var k := Find(files, name);
    files[k := LogFile(name, files[k].text + t)]
  }

  /** The contents of the files, in the order in which they were created. */
  function FilesText(files: Directory): Text {
    if files == [] then [] else FilesText(files[..|files| - 1]) + files[|files| - 1].text
  }

  /** The i-th file carries index i, so that no two files share a name. */
  predicate Numbers(files: Directory) {
    forall i :: 0 <= i < |files| ==> files[i].name.index == i + 1 && |files[i].name.date| == DATE_LENGTH
  }

  predicate AllOversize(files: Directory) {
    forall i :: 0 <= i < |files| ==> |files[i].text| > 1_048_576
  }

  /** Every file but the youngest has outgrown the limit, and none by more than one buffer. */
  predicate SizesOk(files: Directory, bufferSize: nat) {
    && (forall i :: 0 <= i < |files| - 1 ==> |files[i].text| > 1_048_576)
    && (forall i :: 0 <= i < |files| ==> |files[i].text| <= 1_048_576 + bufferSize)
  }

  /** No two files of a numbered directory have the same path. */
  lemma PathsDiffer(files: Directory, dir: string, level: Level, i: nat, j: nat)
    requires Numbers(files) && i < j < |files|
    ensures Path(dir, files[i].name, level) != Path(dir, files[j].name, level)
  {
    if Path(dir, files[i].name, level) == Path(dir, files[j].name, level) {
      PathInjective(dir, files[i].name, files[j].name, level);
    }
  }

  lemma TouchNew(files: Directory, name: LogName)
    requires !Exists(files, name)
    ensures FilesText(Touch(files, name)) == FilesText(files)
  {
    assert Touch(files, name)[..|files|] == files;
  }

  /** Writing to the youngest file appends to the whole. */
  lemma AppendToLast(files: Directory, t: Text)
    requires files != []
    ensures var name := files[|files| - 1].name;
      Exists(files, name) && FilesText(Append(files, name, t)) == FilesText(files) + t
  {
    var name := files[|files| - 1].name;
    var files' := Append(files, name, t);
    assert files'[..|files| - 1] == files[..|files| - 1];
  }

  /** Opening the found file, or a new one after the oversize ones. */
  lemma TouchKeeps(files: Directory, name: LogName, bufferSize: nat)
    requires Numbers(files) && SizesOk(files, bufferSize)
    requires Exists(files, name) ==> files[|files| - 1].name == name && SizeOf(files, name) <= 1_048_576
    requires !Exists(files, name) ==> name.index == |files| + 1 && |name.date| == DATE_LENGTH && AllOversize(files)
    ensures var files' := Touch(files, name);
      && files' != [] && files'[|files'| - 1].name == name && |files'[|files'| - 1].text| <= 1_048_576
      && Exists(files', name) && SizeOf(files', name) <= 1_048_576
      && Numbers(files') && SizesOk(files', bufferSize)
      && FilesText(files') == FilesText(files)
  {
    if !Exists(files, name) { TouchNew(files, name); }
  }

  lemma AppendKeeps(files: Directory, t: Text, bufferSize: nat)
    requires files != [] && Numbers(files) && SizesOk(files, bufferSize)
    requires |files[|files| - 1].text| <= 1_048_576 && |t| <= bufferSize
    ensures var name := files[|files| - 1].name;
      Exists(files, name) && Numbers(Append(files, name, t)) && SizesOk(Append(files, name, t), bufferSize)
  {
  }

  /** n files that have each outgrown the limit hold n times as much. */
  lemma {:induction false} FullFiles(files: Directory)
    requires AllOversize(files)
    ensures |FilesText(files)| >= |files| * (1_048_576 + 1)
  {
    if files != [] {
      var n := |files| - 1;
      var older := files[..n];
      assert AllOversize(older);
      FullFiles(older);
      assert |files[n].text| >= 1_048_576 + 1;
      assert |FilesText(files)| == |FilesText(older)| + |files[n].text|;
    }
  }

  /** While the files hold less than CAPACITY, the next index still fits 16 bits. */
  lemma RoomForNext(files: Directory)
    requires AllOversize(files) && |FilesText(files)| < CAPACITY
    ensures NextIndex(|files|) == |files| + 1
  {
    FullFiles(files);
  }

  // ------------------------------------------------------------------ the log

  predicate NeedsNewFile(files: Directory) {
    files == [] || |files[|files| - 1].text| > 1_048_576
  }

  class MsLogger {
    const level: Level
    var buffer: array<Octet>
    var pptr: nat              // pptr() - pbase()
    var file: Option<LogName>  // the file that file_ is open on
    var fileIndex: nat
    var filePath: LogName
    var files: Directory

    ghost predicate Valid()
      reads this, buffer
    {
      && buffer.Length >= 1 && pptr <= buffer.Length
      && Numbers(files) && SizesOk(files, buffer.Length)
      && filePath.index == fileIndex && |filePath.date| == DATE_LENGTH
      && (files == [] ==> fileIndex == 1 && file.None?)
      && (files != [] ==> filePath == files[|files| - 1].name && file == Some(filePath))
    }

    /** Everything logged so far: what the files hold, then what is pending. */
    ghost function Contents(): Text
      reads this, buffer
      requires Valid()
    {
      FilesText(files) + buffer[..pptr]
    }

    constructor (level: Level, bufferSize: nat)
      requires bufferSize >= 1
      ensures Valid() && Contents() == [] && files == [] && fresh(buffer)
      ensures this.level == level && buffer.Length == bufferSize
    {
      this.level := level;
      buffer := new Octet[bufferSize];
      pptr, file, fileIndex, files := 0, None, 1, [];
      var date := Today();
      filePath := LogName(date, 1);
    }

    method GenerateFilename()
      modifies this`filePath
      ensures filePath.index == fileIndex && |filePath.date| == DATE_LENGTH
    {
      var date := Today();
      filePath := LogName(date, fileIndex);
    }

    /** The second size test of `write_to_file`. */
    method RotateIfOversize()
      requires Exists(files, filePath)
      modifies this`file, this`files, this`fileIndex, this`filePath
      ensures old(SizeOf(files, filePath)) <= 1_048_576 ==>
        file == old(file) && files == old(files) && fileIndex == old(fileIndex) && filePath == old(filePath)
      ensures old(SizeOf(files, filePath)) > 1_048_576 ==>
        fileIndex == NextIndex(old(fileIndex)) == filePath.index && file == Some(filePath) && files == Touch(old(files), filePath)
    {
      if SizeOf(files, filePath) > ROTATE_SIZE {
        file := None;
        fileIndex := NextIndex(fileIndex);
        GenerateFilename();
        file := Some(filePath);
        files := Touch(files, filePath);
      }
    }

    /** The search loop of `write_to_file`: leave a file that has outgrown the
        limit. With no other writer it goes round once at most. */
    method FindFile()
      requires Valid() && |FilesText(files)| < CAPACITY
      modifies this`fileIndex, this`filePath
      ensures filePath.index == fileIndex && |filePath.date| == DATE_LENGTH
      ensures Exists(files, filePath) ==>
        files != [] && files[|files| - 1].name == filePath && file == Some(filePath) && SizeOf(files, filePath) <= 1_048_576
      ensures !Exists(files, filePath) ==> fileIndex == |files| + 1 && AllOversize(files)
      ensures Exists(files, filePath) <==> !NeedsNewFile(files)
    {
      while Exists(files, filePath)
        invariant filePath.index == fileIndex && |filePath.date| == DATE_LENGTH
        invariant Exists(files, filePath) ==> files != [] && filePath == old(filePath)
        invariant !Exists(files, filePath) ==> fileIndex == |files| + 1 && AllOversize(files)
        decreases |files| + 1 - fileIndex
      {
        if SizeOf(files, filePath) > ROTATE_SIZE {
          RoomForNext(files);
          fileIndex := NextIndex(fileIndex);
          GenerateFilename();
        } else {
          break;
        }
      }
    }

    method OpenFile()
      requires Exists(files, filePath) && file.Some? ==> file == Some(filePath)
      modifies this`file, this`files
      ensures file == Some(filePath) && files == Touch(old(files), filePath)
    {
      if !Exists(files, filePath) || file.None? {
        file := None;
        file := Some(filePath);
        files := Touch(files, filePath);
      }
    }

    /** `write_to_file` up to the write: the open file is the youngest one and has room. */
    method OpenForWriting()
      requires Valid() && |FilesText(files)| < CAPACITY
      modifies this`file, this`files, this`fileIndex, this`filePath
      ensures Valid() && files != [] && FilesText(files) == old(FilesText(files))
      ensures |files[|files| - 1].text| <= 1_048_576
      // one new file when the youngest one has outgrown the limit, and otherwise none
      ensures |files| == |old(files)| + if NeedsNewFile(old(files)) then 1 else 0
    {
      FindFile();
      ghost var found := files;
      TouchKeeps(found, filePath, buffer.Length);
      OpenFile();
      assert files == Touch(found, filePath) && SizeOf(files, filePath) <= 1_048_576;
      RotateIfOversize();
    }

    method WriteToFile()
      requires Valid() && |FilesText(files)| < CAPACITY
      modifies this`file, this`files, this`fileIndex, this`filePath
      ensures Valid()
      ensures files != [] && FilesText(files) == old(FilesText(files)) + buffer[..pptr]
      ensures |files| == |old(files)| + if NeedsNewFile(old(files)) then 1 else 0
    {
      OpenForWriting();
      AppendToLast(files, buffer[..pptr]);
      AppendKeeps(files, buffer[..pptr], buffer.Length);
      files := Append(files, file.value, buffer[..pptr]);
    }

    method Sync()
      requires Valid() && |FilesText(files)| < CAPACITY
      modifies this, buffer
      ensures Valid() && buffer == old(buffer)
      ensures files != [] && pptr == 0
      ensures FilesText(files) == old(Contents())
    {
      WriteToFile();
      forall i | 0 <= i < buffer.Length { buffer[i] := '\0'; }
      pptr := 0;
    }

    method Overflow(ch: int) returns (r: int)
      requires Valid() && |FilesText(files)| < CAPACITY
      requires ch == -1 || 0 <= ch < 256
      modifies this, buffer
      ensures Valid() && buffer == old(buffer)
      ensures ch == -1 ==> Contents() == old(Contents()) && r != -1
      ensures ch != -1 ==> Contents() == old(Contents()) + [ch as char] && r == ch
    {
      Sync();
      if ch == EOF {
        return 0;
      }
      buffer[0] := ch as char;
      pptr := pptr + 1;
      r := ch;
    }

    /** `sputc` of the standard stream buffer. */
    method SPutC(c: Octet) returns (r: int)
      requires Valid() && |Contents()| < CAPACITY
      modifies this, buffer
      ensures Valid() && buffer == old(buffer)
      ensures Contents() == old(Contents()) + [c] && r == c as int
    {
      if pptr == buffer.Length {
        r := Overflow(c as int);
      } else {
        ghost var pending := buffer[..pptr];
        buffer[pptr] := c;
        pptr := pptr + 1;
        assert buffer[..pptr] == pending + [c];
        r := c as int;
      }
    }

    /** The fast path copies; the slow path goes through `sputc` and flushes
        whenever the buffer is full. */
    method XSPutN(s: Text) returns (n: nat)
      requires Valid() && |Contents()| + |s| <= CAPACITY
      modifies this, buffer
      ensures Valid() && buffer == old(buffer)
      ensures Contents() == old(Contents()) + s && n == |s|
    {
      if buffer.Length - pptr >= |s| {
        ghost var pending := buffer[..pptr];
        forall i | 0 <= i < |s| { buffer[pptr + i] := s[i]; }
        pptr := pptr + |s|;
        assert buffer[..pptr] == pending + s;
        return |s|;
      }
      for i := 0 to |s|
        invariant Valid() && buffer == old(buffer)
        invariant Contents() == old(Contents()) + s[..i]
      {
        var r := SPutC(s[i]);
        assert s[..i] + [s[i]] == s[..i + 1];
        if r == EOF { assert false; }  // a byte never reads as end of file
      }
      assert s[..|s|] == s;
      return |s|;
    }

    method LogToFile(e: Entry)
      requires Valid() && |Contents()| + |Format(e)| <= CAPACITY
      modifies this, buffer
      ensures Valid() && buffer == old(buffer)
      ensures Contents() == old(Contents()) + Format(e)
      // one line more for a reader of the log, from which the entry is recovered
      ensures OneLine(e) && ReadLog(old(Contents())).line == [] ==>
        ReadLog(Contents()) == Reader(ReadLog(old(Contents())).done + [Some(e)], [])
    {
      ReadConcat(Reader([], []), Contents(), Format(e));
      if OneLine(e) { EntryRead(ReadLog(Contents()).done, e); }
      var n := XSPutN(Format(e));
    }

    /** A larger buffer takes over the bytes but not the put position: what was
        pending is abandoned. */
    method SetBufferSize(bs: nat)
      requires Valid()
      modifies this`buffer, this`pptr
      ensures Valid() && (buffer == old(buffer) || fresh(buffer))
      ensures Contents() == if bs < old(buffer.Length) then old(Contents()) else old(FilesText(files))
      ensures Contents() == old(Contents()) <==> bs < old(buffer.Length) || old(pptr) == 0
    {
      if bs < buffer.Length {
        return;
      }
      var tmp := buffer[..];
      var larger := new Octet[bs];
      forall i | 0 <= i < |tmp| { larger[i] := tmp[i]; }
      assert old(Contents()) == FilesText(files) + buffer[..pptr];
      buffer, pptr := larger, 0;
    }

    /** The destructor. */
    method Destroy()
      requires Valid() && |Contents()| < CAPACITY
      modifies this, buffer
      ensures Valid() && buffer == old(buffer) && FilesText(files) == old(Contents())
    {
      if pptr > 0 {
        Sync();
      }
    }
  }

  lemma {:induction false} FormatAllMonotone(entries: seq<Entry>, i: nat)
    requires i <= |entries|
    ensures |FormatAll(entries[..i])| <= |FormatAll(entries)|
  {
    if i < |entries| {
      assert entries[..|entries| - 1][..i] == entries[..i];
      FormatAllMonotone(entries[..|entries| - 1], i);
    } else {
      assert entries[..i] == entries;
    }
  }

  /** A whole life of the logger: the files it leaves behind, read in order, hold
      exactly the formatted messages, and none is larger than 1 MiB plus a buffer. */
  method Life(level: Level, bufferSize: nat, entries: seq<Entry>) returns (files: Directory)
    requires bufferSize >= 1 && |FormatAll(entries)| < CAPACITY
    ensures Numbers(files) && SizesOk(files, bufferSize)
    ensures FilesText(files) == FormatAll(entries)
    // a reader of the files recovers every entry, if no message has a line break
    ensures ReadLog(FilesText(files)).done == Read(entries) <==> AllOneLine(entries)
  {
    files := LogAll(level, bufferSize, entries);
    ReadBackIff(entries);
  }

  method LogAll(level: Level, bufferSize: nat, entries: seq<Entry>) returns (files: Directory)
    requires bufferSize >= 1 && |FormatAll(entries)| < CAPACITY
    ensures Numbers(files) && SizesOk(files, bufferSize)
    ensures FilesText(files) == FormatAll(entries)
  {
    var logger := new MsLogger(level, bufferSize);
    for i := 0 to |entries|
      invariant logger.Valid() && fresh(logger) && fresh(logger.buffer)
      invariant logger.buffer.Length == bufferSize
      invariant logger.Contents() == FormatAll(entries[..i])
    {
      FormatAllMonotone(entries, i + 1);
      assert entries[..i + 1][..i] == entries[..i];
      logger.LogToFile(entries[i]);
    }
    assert entries[..|entries|] == entries;
    logger.Destroy();
    files := logger.files;
  }
}
