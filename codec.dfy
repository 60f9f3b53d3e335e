/**
 * The CSV snapshot format of manager/FileBackedTaskManager.java: one line per
 * record, written by `toStringLine` and read back by the loop of
 * `loadFromFile`.
 *
 * A record line is the id, the type, the title, the status, the description,
 * the start in epoch milliseconds (0 for an unscheduled record), the duration
 * in milliseconds and, for a subtask only, its epic id, separated by commas;
 * every line but a subtask's therefore ends with a comma. The reader splits a
 * line into at most eight fields on commas, swallowing the spaces around each
 * comma (the Java literal "\s*,\s*" is the regular expression ` *, *`, since
 * `\s` in a Java string literal is one space), and parses the numbers as Java
 * `Integer.parseInt` and `Long.parseLong` do.
 */
module Codec {
  import opened Wrappers
  import opened Model

  /** The header line `save` writes first. */
  const Header: string := "id" + ",type,name," + "status," + "description," + "epic,startTime,duration"

  const IntMin: int := -0x8000_0000
  const IntMax: int := 0x7fff_ffff
  const LongMin: int := -0x8000_0000_0000_0000
  const LongMax: int := 0x7fff_ffff_ffff_ffff

  // ---------------------------------------------------------------------
  // Decimal integers: `%d`, `StringBuilder.append(Integer)` and the parsers

  predicate IsDigit(c: char)
  {
    '0' <= c <= '9'
  }

  predicate AllDigits(s: string)
  {
    forall i :: 0 <= i < |s| ==> IsDigit(s[i])
  }

  function DigitChar(d: nat): (c: char)
    requires d < 10
    ensures IsDigit(c)
  {
    ('0' as int + d) as char
  }

  /** The decimal digits of `n`, without leading zeros. */
  function Digits(n: nat): (r: string)
    ensures |r| >= 1 && AllDigits(r)
  {
    if n < 10 then [DigitChar(n)] else Digits(n / 10) + [DigitChar(n % 10)]
  }

  /** `%d` of a number: a minus sign for a negative one, then its digits. */
  function DecimalText(i: int): string
  {
    if i < 0 then ['-'] + Digits(-i) else Digits(i)
  }

  /** The value of a run of decimal digits; leading zeros are allowed. */
  function DigitsValue(s: string): nat
    requires AllDigits(s)
  {
    if s == [] then 0 else DigitsValue(s[..|s| - 1]) * 10 + (s[|s| - 1] as int - '0' as int)
  }

  /** Reading back the digits of `n` gives `n`. */
  lemma {:induction false} DigitsRoundTrip(n: nat)
    ensures DigitsValue(Digits(n)) == n
  {
    if n >= 10 {
      DigitsRoundTrip(n / 10);
      var s := Digits(n);
      assert s[..|s| - 1] == Digits(n / 10);
    }
  }

  /** `Integer.parseInt` (with `lo`, `hi` the int range) or `Long.parseLong` (the long range):
      an optional sign, at least one digit and nothing else, with a value inside the range;
      anything else throws NumberFormatException. */
  function ParseInteger(s: string, lo: int, hi: int): (r: Result<int>)
    ensures r.Ok? ==> lo <= r.value <= hi
    ensures r.Err? ==> r.error == NumberFormat
    ensures s == [] ==> r.Err?
  {
    if s == [] then Err(NumberFormat)
    else
      var signed := s[0] == '-' || s[0] == '+';
      var body := if signed then s[1..] else s;
      if body == [] || !AllDigits(body) then Err(NumberFormat)
      else
        var v: int := if s[0] == '-' then -(DigitsValue(body) as int) else DigitsValue(body);
        if lo <= v <= hi then Ok(v) else Err(NumberFormat)
  }

  /** The decimal text of a number parses back to it exactly when it is inside the range. */
  lemma DecimalRoundTrip(i: int, lo: int, hi: int)
    ensures ParseInteger(DecimalText(i), lo, hi) == if lo <= i <= hi then Ok(i) else Err(NumberFormat)
  {
    if i < 0 {
      NegativeReadBack(i);
      DigitsRoundTrip(-i);
    } else {
      DigitsRoundTrip(i);
      var s := Digits(i);
      assert s[0] != '-' && s[0] != '+';
    }
  }

  /** A minus sign and digits read back as the negative number. */
  lemma NegativeReadBack(i: int)
    requires i < 0
    ensures DecimalText(i)[0] == '-' && DecimalText(i)[1..] == Digits(-i)
  {
    assert DecimalText(i)[1..] == Digits(-i);
  }

  // ---------------------------------------------------------------------
  // Blank lines and the header

  /** `Character.isWhitespace`: the ASCII separators and the Unicode space, line and paragraph
      separators other than the non-breaking spaces. */
  predicate IsWhitespace(c: char)
  {
    var n := c as int;
    (9 <= n <= 13) || (28 <= n <= 32) || n == 0x1680 || (0x2000 <= n <= 0x2006) ||
    (0x2008 <= n <= 0x200A) || n == 0x2028 || n == 0x2029 || n == 0x205F || n == 0x3000
  }

  /** `String.isBlank`: empty or only white space. */
  predicate IsBlank(s: string)
  {
    forall i :: 0 <= i < |s| ==> IsWhitespace(s[i])
  }

  /** `line.startsWith("id")`: the lines the loader skips, such as the header. */
  predicate StartsWithId(s: string)
  {
    |s| >= 2 && s[0] == 'i' && s[1] == 'd'
  }

  // ---------------------------------------------------------------------
  // Fields: `line.split(" *, *", 8)` and its inverse

  /** The text without its leading spaces. */
  function TrimStart(s: string): (r: string)
    ensures r != [] ==> r[0] != ' '
  {
    if s != [] && s[0] == ' ' then TrimStart(s[1..]) else s
  }

  /** The text without its trailing spaces. */
  function TrimEnd(s: string): (r: string)
    ensures r != [] ==> r[|r| - 1] != ' '
  {
    if s != [] && s[|s| - 1] == ' ' then TrimEnd(s[..|s| - 1]) else s
  }

  /** The index of the first comma. */
  function CommaAt(s: string): (r: nat)
    requires ',' in s
    ensures r < |s| && s[r] == ',' && ',' !in s[..r]
  {
    if s[0] == ',' then 0
    else
      assert ',' in s[1..] by {
        var i :| 0 <= i < |s| && s[i] == ',';
        assert s[1..][i - 1] == ',';
      }
      var k := CommaAt(s[1..]);
      assert s[..k + 1] == [s[0]] + s[1..][..k];
      k + 1
  }

  /** `split(" *, *", limit)` for a positive limit: the leftmost comma and the spaces around it
      separate the first field from the rest, at most `limit - 1` times; the last field is the
      unsplit remainder, and trailing empty fields are kept. */
  function SplitFields(s: string, limit: nat): (r: seq<string>)
    requires limit >= 1
    ensures 1 <= |r| <= limit
    decreases limit
  {
    if limit == 1 || ',' !in s then [s]
    else
      var c := CommaAt(s);
      [TrimEnd(s[..c])] + SplitFields(TrimStart(s[c + 1..]), limit - 1)
  }

  /** The fields joined with commas. */
  function Join(fields: seq<string>): string
    requires |fields| >= 1
  {
    if |fields| == 1 then fields[0] else fields[0] + "," + Join(fields[1..])
  }

  /**
   * A field the file gives back unchanged: no comma for the split, no line
   * break for the reader of lines, and no space at either end.
   */
  predicate Clean(f: string)
  {
    ',' !in f && '\n' !in f && '\r' !in f && (f != [] ==> f[0] != ' ' && f[|f| - 1] != ' ')
  }

  /** Every field clean. */
  predicate AllClean(fields: seq<string>)
  {
    fields == [] || (Clean(fields[0]) && AllClean(fields[1..]))
  }

  /** Joined text does not start with a space when its first field does not. */
  lemma JoinStart(fields: seq<string>)
    requires |fields| >= 1 && Clean(fields[0])
    ensures Join(fields) != [] ==> Join(fields)[0] != ' '
  {
    if |fields| > 1 && fields[0] == [] {
      assert Join(fields)[0] == ',';
    }
  }

  /** One step of the split: a clean first field, a comma, and a rest that does not start with
      a space. */
  lemma SplitStep(s: string, f: string, rest: string, limit: nat)
    requires s == f + "," + rest && Clean(f) && (rest != [] ==> rest[0] != ' ') && limit >= 2
    ensures SplitFields(s, limit) == [f] + SplitFields(rest, limit - 1)
  {
    assert s[|f|] == ',';
    assert s[..|f|] == f;
    assert s[|f| + 1..] == rest;
  }

  /** Splitting joined clean fields gives them back, whenever the limit allows as many fields. */
  lemma {:induction false} SplitJoin(fields: seq<string>, limit: nat)
    requires 1 <= |fields| <= limit && AllClean(fields)
    ensures SplitFields(Join(fields), limit) == fields
  {
    if |fields| == 1 {
      assert ',' !in Join(fields);
    } else {
      SplitJoin(fields[1..], limit - 1);
      JoinStart(fields[1..]);
      SplitJoinStep(fields, limit);
    }
  }

  /** The inductive step of `SplitJoin`: the first field comes off, the rest splits as before. */
  lemma SplitJoinStep(fields: seq<string>, limit: nat)
    requires 2 <= |fields| <= limit && Clean(fields[0])
    requires SplitFields(Join(fields[1..]), limit - 1) == fields[1..]
    requires Join(fields[1..]) != [] ==> Join(fields[1..])[0] != ' '
    ensures SplitFields(Join(fields), limit) == fields
  {
    SplitStep(Join(fields), fields[0], Join(fields[1..]), limit);
    assert fields == [fields[0]] + fields[1..];
  }

  // ---------------------------------------------------------------------
  // Enum names: `%s` of an enum and `Enum.valueOf`

  function TypeName(t: TaskType): string
  {
    match t
    case TASK => "TASK"
    case EPIC => "EPIC"
    case SUBTASK => "SUBTASK"
  }

  /** `TaskType.valueOf`: the exact constant name, or IllegalArgumentException. */
  function ParseType(s: string): (r: Result<TaskType>)
    ensures r.Err? ==> r.error == IllegalArgument
    ensures r.Ok? ==> TypeName(r.value) == s
  {
    if s == "TASK" then Ok(TASK)
    else if s == "EPIC" then Ok(EPIC)
    else if s == "SUBTASK" then Ok(SUBTASK)
    else Err(IllegalArgument)
  }

  function StatusName(s: Status): string
  {
    match s
    case NEW => "NEW"
    case IN_PROGRESS => "IN_PROGRESS"
    case DONE => "DONE"
  }

  /** `TaskStatus.valueOf`: the exact constant name, or IllegalArgumentException. */
  function ParseStatus(s: string): (r: Result<Status>)
    ensures r.Err? ==> r.error == IllegalArgument
    ensures r.Ok? ==> StatusName(r.value) == s
  {
    if s == "NEW" then Ok(NEW)
    else if s == "IN_PROGRESS" then Ok(IN_PROGRESS)
    else if s == "DONE" then Ok(DONE)
    else Err(IllegalArgument)
  }

  /** Every type name is read back as its type. */
  lemma NamesRoundTrip(t: TaskType, s: Status)
    ensures ParseType(TypeName(t)) == Ok(t)
    ensures ParseStatus(StatusName(s)) == Ok(s)
  {
  }

  // ---------------------------------------------------------------------
  // Lines: `toStringLine` and one iteration of the loader's first loop

  /** The start column: 0 for an unscheduled record, else the epoch milliseconds. */
  function StartMillis(start: Option<int>): int
  {
    if start.Some? then start.value else 0
  }

  /** `%d` or `append` of an Integer that may be null. */
  function IdText(id: Option<int>): string
  {
    if id.Some? then DecimalText(id.value) else "null"
  }

  /** The eight fields `toStringLine` writes; the last is empty except for a subtask, whose epic
      id is written as `append` writes it, "null" included. */
  function LineFields(t: Task): (r: seq<string>)
    ensures |r| == 8
  {
    [IdText(t.id), TypeName(t.taskType), t.title, StatusName(t.status), t.description,
     DecimalText(StartMillis(t.start)), DecimalText(t.duration),
     if t.Subtask? then IdText(t.epicId) else ""]
  }

  /** `toStringLine`: the format "%d,%s,%s,%s,%s,%d,%d," followed by a subtask's epic id. */
  function EncodeLine(t: Task): string
  {
    Join(LineFields(t))
  }

  /** A record line as the loader reads it: the record it builds, and the epic column. */
  datatype Line = Line(record: Task, epicId: Option<int>)

  /** The record the loader builds for a type: a Task, an Epic with an empty id set (and no end
      time), or a Subtask made with a placeholder epic, hence with no epic link. */
  function Build(id: int, ty: TaskType, title: string, status: Status, description: string,
                 start: Option<int>, duration: nat): (t: Task)
    ensures t.id == Some(id) && t.taskType == ty && t.title == title && t.status == status
    ensures t.description == description && t.start == start && t.duration == duration
    ensures ty == TASK <==> t.Plain?
    ensures ty == EPIC <==> t.Epic?
    ensures t.Epic? ==> t.subtasksId == {} && t.endTime.None?
    ensures t.Subtask? ==> t.epicId.None?
  {
    match ty
    case TASK => FullTask(id, title, description, status, ty, start, duration)
    case SUBTASK => FullSubtask(id, title, description, status, ty, NewEpic("", ""), start, duration)
    case EPIC => FullEpic(id, title, description, status, ty, {}, start, duration)
  }

  /** The epic column: blank means no link, anything else must parse as an int. */
  function ParseEpicColumn(f: string): (r: Result<Option<int>>)
    ensures r.Err? ==> r.error == NumberFormat
  {
    if IsBlank(f) then Ok(None)
    else
      var e := ParseInteger(f, IntMin, IntMax);
      if e.Err? then Err(e.error) else Ok(Some(e.value))
  }

  /** One line of the loader: the fields are read in order, each failure throwing the exception
      of the first field that fails (a missing field throws ArrayIndexOutOfBoundsException); a
      start of 0 is read as unscheduled. */
  function DecodeLine(line: string): (r: Result<Line>)
    ensures r.Ok? ==> r.value.record.id.Some? && IntMin <= r.value.record.id.value <= IntMax
    ensures r.Ok? ==> r.value.record.start != Some(0)
  {
    DecodeFields(SplitFields(line, 8))
  }

  /** The id and type columns. */
  function DecodeFields(f: seq<string>): (r: Result<Line>)
    requires 1 <= |f|
    ensures r.Ok? ==> r.value.record.id.Some? && IntMin <= r.value.record.id.value <= IntMax
    ensures r.Ok? ==> r.value.record.start != Some(0)
  {
    var id := ParseInteger(f[0], IntMin, IntMax);
    if id.Err? then Err(id.error)
    else if |f| < 2 then Err(IndexOutOfBounds)
    else
      var ty := ParseType(f[1]);
      if ty.Err? then Err(ty.error)
      else DecodeBody(id.value, ty.value, f)
  }

  /** The title, status, description and start columns. */
  function DecodeBody(id: int, ty: TaskType, f: seq<string>): (r: Result<Line>)
    requires 2 <= |f|
    ensures r.Ok? ==> r.value.record.id == Some(id) && r.value.record.start != Some(0)
  {
    if |f| < 4 then Err(IndexOutOfBounds)
    else
      var status := ParseStatus(f[3]);
      if status.Err? then Err(status.error)
      else if |f| < 6 then Err(IndexOutOfBounds)
      else
        var start := ParseInteger(f[5], LongMin, LongMax);
        if start.Err? then Err(start.error)
        else DecodeTail(id, ty, f[2], status.value, f[4], if start.value == 0 then None else Some(start.value), f)
  }

  /** The duration and epic columns, and the record built from all of them. A negative duration
      is refused, since durations here are never negative. */
  function DecodeTail(id: int, ty: TaskType, title: string, status: Status, description: string,
                      start: Option<int>, f: seq<string>): (r: Result<Line>)
    requires 6 <= |f| && start != Some(0)
    ensures r.Ok? ==> r.value.record.id == Some(id) && r.value.record.start == start
  {
    if |f| < 7 then Err(IndexOutOfBounds)
    else
      var duration := ParseInteger(f[6], LongMin, LongMax);
      if duration.Err? then Err(duration.error)
      else if |f| < 8 then Err(IndexOutOfBounds)
      else
        var epic := ParseEpicColumn(f[7]);
        if epic.Err? then Err(epic.error)
        else if duration.value < 0 then Err(IllegalArgument)
        else Ok(Line(Build(id, ty, title, status, description, start, duration.value), epic.value))
  }

  // ---------------------------------------------------------------------
  // What a line round trip recovers

  /** A record whose first seven columns read back: an id and numbers inside the Java ranges, a
      type that matches its class, and text fields the split leaves alone. */
  predicate ColumnsEncodable(t: Task)
  {
    t.id.Some? && IntMin <= t.id.value <= IntMax &&
    (t.Plain? <==> t.taskType == TASK) && (t.Epic? <==> t.taskType == EPIC) &&
    Clean(t.title) && Clean(t.description) &&
    (t.start.Some? ==> LongMin <= t.start.value <= LongMax) && t.duration <= LongMax
  }

  /** A record whose whole line reads back: its columns do, and a subtask has an epic id in the
      int range. */
  predicate Encodable(t: Task)
  {
    ColumnsEncodable(t) && (t.Subtask? ==> t.epicId.Some? && IntMin <= t.epicId.value <= IntMax)
  }

  /** What the loader rebuilds from a record's line: an epic loses its id set and end time, a
      subtask its epic link (the line's epic column holds it), and a start at the epoch reads as
      unscheduled. */
  function Reloaded(t: Task): (r: Task)
    ensures r.Plain? == t.Plain? && r.Epic? == t.Epic? && r.Subtask? == t.Subtask? && r.id == t.id
  {
    var t1 := if t.start == Some(0) then t.(start := None) else t;
    match t1
    case Plain(_, _, _, _, _, _, _) => t1
    case Epic(_, _, _, _, _, _, _, _, _) => t1.(subtasksId := {}, endTime := None)
    case Subtask(_, _, _, _, _, _, _, _) => t1.(epicId := None)
  }

  /** The epic column of a record's line. */
  function EpicColumn(t: Task): Option<int>
  {
    if t.Subtask? then t.epicId else None
  }

  /** Every column of a record with clean text fields is clean. */
  lemma LineFieldsClean(t: Task)
    requires Clean(t.title) && Clean(t.description)
    ensures AllClean(LineFields(t))
  {
    var fs := LineFields(t);
    IdTextClean(t.id);
    NamesClean(t.taskType, t.status);
    DecimalTextClean(StartMillis(t.start));
    DecimalTextClean(t.duration);
    if t.Subtask? {
      IdTextClean(t.epicId);
    }
    AllCleanOfEight(fs);
  }

  /** The type and status names are clean. */
  lemma NamesClean(tt: TaskType, st: Status)
    ensures Clean(TypeName(tt)) && Clean(StatusName(st))
  {
    TypeNameClean(tt);
    StatusNameClean(st);
  }

  lemma TypeNameClean(tt: TaskType)
    ensures Clean(TypeName(tt))
  {
    var n := TypeName(tt);
    assert forall i :: 0 <= i < |n| ==> 'A' <= n[i] <= 'Z';
  }

  lemma StatusNameClean(st: Status)
    ensures Clean(StatusName(st))
  {
    var n := StatusName(st);
    assert forall i :: 0 <= i < |n| ==> 'A' <= n[i] <= 'Z' || n[i] == '_';
  }

  /** The fields of a record with clean text fields split back unchanged. */
  lemma LineFieldsSplit(t: Task)
    requires Clean(t.title) && Clean(t.description)
    ensures SplitFields(EncodeLine(t), 8) == LineFields(t)
  {
    LineFieldsClean(t);
    SplitJoin(LineFields(t), 8);
  }

  /** Eight clean fields, one by one. */
  lemma AllCleanOfEight(fs: seq<string>)
    requires |fs| == 8 && Clean(fs[0]) && Clean(fs[1]) && Clean(fs[2]) && Clean(fs[3])
    requires Clean(fs[4]) && Clean(fs[5]) && Clean(fs[6]) && Clean(fs[7])
    ensures AllClean(fs)
  {
    assert fs[8..] == [];
    var i := 8;
    while i > 0
      invariant 0 <= i <= 8 && AllClean(fs[i..])
    {
      i := i - 1;
      assert fs[i..][1..] == fs[i + 1..];
    }
    assert fs[0..] == fs;
  }

  /** An id's text, "null" included, has no comma and no space. */
  lemma IdTextClean(id: Option<int>)
    ensures Clean(IdText(id))
  {
    if id.Some? {
      DecimalTextClean(id.value);
    } else {
      assert "null"[0] != ' ' && "null"[3] != ' ';
      assert forall i :: 0 <= i < 4 ==> "null"[i] != ',';
    }
  }

  /** The record the loader builds from an encodable record's columns is its reloaded form. */
  lemma BuildReloaded(t: Task)
    requires ColumnsEncodable(t)
    ensures Build(t.id.value, t.taskType, t.title, t.status, t.description,
                  if StartMillis(t.start) == 0 then None else Some(StartMillis(t.start)), t.duration)
            == Reloaded(t)
  {
  }

  /** A saved line whose first seven columns read back loads as the reloaded record, unless its
      epic column fails to parse. */
  lemma ColumnsRoundTrip(t: Task)
    requires ColumnsEncodable(t)
    ensures var epic := ParseEpicColumn(LineFields(t)[7]);
      DecodeLine(EncodeLine(t)) == if epic.Err? then Err(epic.error) else Ok(Line(Reloaded(t), epic.value))
  {
    var fs := LineFields(t);
    LineFieldsSplit(t);
    assert DecodeLine(EncodeLine(t)) == DecodeFields(fs);
    NamesRoundTrip(t.taskType, t.status);
    DecimalRoundTrip(t.id.value, IntMin, IntMax);
    DecimalRoundTrip(StartMillis(t.start), LongMin, LongMax);
    DecimalRoundTrip(t.duration, LongMin, LongMax);
    var st := if StartMillis(t.start) == 0 then None else Some(StartMillis(t.start));
    BuildReloaded(t);
    var r := DecodeTail(t.id.value, t.taskType, t.title, t.status, t.description, st, fs);
    assert DecodeBody(t.id.value, t.taskType, fs) == r;
  }

  /** Loading a saved line gives back the record's id, type, title, status, description, start,
      duration and, in the epic column, a subtask's epic id. */
  lemma LineRoundTrip(t: Task)
    requires Encodable(t)
    ensures DecodeLine(EncodeLine(t)) == Ok(Line(Reloaded(t), EpicColumn(t)))
  {
    ColumnsRoundTrip(t);
    if t.Subtask? {
      DecimalRoundTrip(t.epicId.value, IntMin, IntMax);
      DecimalTextNotBlank(t.epicId.value);
    }
  }

  /** A number's text has no comma and no space. */
  lemma DecimalTextClean(i: int)
    ensures Clean(DecimalText(i))
  {
    var s := DecimalText(i);
    assert forall k :: 0 <= k < |s| ==> s[k] == '-' || IsDigit(s[k]) by {
      if i < 0 {
        assert forall k :: 1 <= k < |s| ==> s[k] == Digits(-i)[k - 1];
      }
    }
  }

  /** A real start at the epoch is written as 0 and read back as unscheduled. */
  lemma EpochStartReadsUnscheduled(t: Task)
    requires Encodable(t) && t.start == Some(0)
    ensures DecodeLine(EncodeLine(t)).Ok? && DecodeLine(EncodeLine(t)).value.record.start.None?
  {
    LineRoundTrip(t);
  }

  /** A subtask without an epic is saved with the epic column "null", which the loader cannot
      parse: the line does not load. */
  lemma EpiclessSubtaskUnreadable(t: Task)
    requires t.Subtask? && t.epicId.None? && ColumnsEncodable(t)
    ensures DecodeLine(EncodeLine(t)) == Err(NumberFormat)
  {
    ColumnsRoundTrip(t);
    assert LineFields(t)[7] == "null";
    NullColumnFails();
  }

  /** The epic column "null" does not parse. */
  lemma NullColumnFails()
    ensures ParseEpicColumn("null") == Err(NumberFormat)
  {
    assert !IsBlank("null") by {
      assert !IsWhitespace("null"[0]);
    }
    assert !AllDigits("null") by {
      assert !IsDigit("null"[0]);
    }
  }

  /** A number's text is not blank. */
  lemma DecimalTextNotBlank(i: int)
    ensures !IsBlank(DecimalText(i))
  {
    var s := DecimalText(i);
    if i < 0 {
      assert s[0] == '-';
    } else {
      assert IsDigit(s[0]);
    }
  }

  /** A record line is never blank and never taken for the header. */
  lemma RecordLineShape(t: Task)
    requires t.id.Some?
    ensures !IsBlank(EncodeLine(t)) && !StartsWithId(EncodeLine(t))
  {
    var fs := LineFields(t);
    var s := EncodeLine(t);
    var d := DecimalText(t.id.value);
    assert s == d + "," + Join(fs[1..]);
    DecimalTextNotBlank(t.id.value);
    DecimalTextClean(t.id.value);
    assert s[0] == d[0];
    assert d[0] == '-' || IsDigit(d[0]) by {
      if t.id.value >= 0 {
        assert IsDigit(Digits(t.id.value)[0]);
      }
    }
    assert !IsWhitespace(s[0]);
  }

  // ---------------------------------------------------------------------
  // Whole files: what `save` writes and what the first loop of `loadFromFile` reads

  /** The lines `save` writes for the records, in the order given: the header, then one line
      per record. */
  function SnapshotLines(records: seq<Task>): (r: seq<string>)
    ensures |r| == |records| + 1 && r[0] == Header
    ensures forall i :: 0 <= i < |records| ==> r[i + 1] == EncodeLine(records[i])
  {
    if records == [] then [Header] else SnapshotLines(records[..|records| - 1]) + [EncodeLine(records[|records| - 1])]
  }

  /** The first loop of the loader as a parser: it stops at the first blank line, skips lines
      starting with "id" and reads every other line, stopping at the first one that fails. */
  function ParseLines(lines: seq<string>): (r: Result<seq<Line>>)
    ensures r.Ok? ==> |r.value| <= |lines|
  {
    if lines == [] || IsBlank(lines[0]) then Ok([])
    else if StartsWithId(lines[0]) then ParseLines(lines[1..])
    else
      var l := DecodeLine(lines[0]);
      if l.Err? then Err(l.error)
      else
        var rest := ParseLines(lines[1..]);
        if rest.Err? then rest else Ok([l.value] + rest.value)
  }

  /** The header is skipped. */
  lemma HeaderSkipped()
    ensures StartsWithId(Header) && !IsBlank(Header)
  {
    assert !IsWhitespace(Header[0]);
  }

  /** Loading a saved file reads back every record, in the order written. */
  lemma {:induction false} SnapshotRoundTrip(records: seq<Task>)
    requires forall i :: 0 <= i < |records| ==> Encodable(records[i])
    ensures ParseLines(SnapshotLines(records)) ==
      Ok(Reread(records))
  {
    HeaderSkipped();
    var lines := SnapshotLines(records);
    assert lines[1..] == RecordLines(records);
    RecordLinesRoundTrip(records);
  }

  /** The text `save` writes for its lines: each line followed by "\n". */
  function FileText(lines: seq<string>): string
  {
    if lines == [] then [] else lines[0] + "\n" + FileText(lines[1..])
  }

  /** `Files.readAllLines`: the text up to each "\n", "\r" or "\r\n" is one line, and a
      terminator at the very end opens no further line. */
  function ReadAllLines(text: string): (r: seq<string>)
    decreases |text|
  {
    if text == [] then []
    else
      var n := LineLength(text);
      var rest := if n == |text| then []
                  else if text[n] == '\r' && n + 1 < |text| && text[n + 1] == '\n' then text[n + 2..]
                  else text[n + 1..];
      [text[..n]] + ReadAllLines(rest)
  }

  /** The length of the text before its first line break (all of it when it has none). */
  function LineLength(text: string): (n: nat)
    ensures n <= |text|
    ensures forall k :: 0 <= k < n ==> text[k] != '\n' && text[k] != '\r'
    ensures n < |text| ==> text[n] == '\n' || text[n] == '\r'
  {
    if text == [] || text[0] == '\n' || text[0] == '\r' then 0 else 1 + LineLength(text[1..])
  }

  /** A line without breaks, then "\n": the first line read is that line. */
  lemma {:induction false} LineLengthOfLine(line: string, rest: string)
    requires '\n' !in line && '\r' !in line
    ensures LineLength(line + "\n" + rest) == |line|
  {
    if line != [] {
      assert (line + "\n" + rest)[1..] == line[1..] + "\n" + rest;
      LineLengthOfLine(line[1..], rest);
    }
  }

  /** Lines without breaks are read back as written. */
  lemma {:induction false} ReadWrittenLines(lines: seq<string>)
    requires forall i :: 0 <= i < |lines| ==> '\n' !in lines[i] && '\r' !in lines[i]
    ensures ReadAllLines(FileText(lines)) == lines
  {
    if lines != [] {
      var text := FileText(lines);
      assert text == lines[0] + "\n" + FileText(lines[1..]);
      LineLengthOfLine(lines[0], FileText(lines[1..]));
      var n := |lines[0]|;
      assert text[..n] == lines[0];
      assert text[n] == '\n';
      assert text[n + 1..] == FileText(lines[1..]);
      ReadWrittenLines(lines[1..]);
    }
  }

  /** A record's line holds no line break, so it is read back as one line. */
  lemma LineHasNoBreak(t: Task)
    requires t.id.Some? && Clean(t.title) && Clean(t.description)
    ensures '\n' !in EncodeLine(t) && '\r' !in EncodeLine(t)
  {
    LineFieldsClean(t);
    JoinClean(LineFields(t));
  }

  /** Clean fields join into text without line breaks. */
  lemma {:induction false} JoinClean(fields: seq<string>)
    requires |fields| >= 1 && AllClean(fields)
    ensures '\n' !in Join(fields) && '\r' !in Join(fields)
  {
    if |fields| > 1 {
      JoinClean(fields[1..]);
    }
  }

  /** Loading the text of a saved file reads back every record, in the order written: the
      lines `readAllLines` gives are the lines `save` wrote. */
  lemma SavedTextRoundTrip(records: seq<Task>)
    requires forall i :: 0 <= i < |records| ==> Encodable(records[i])
    ensures ReadAllLines(FileText(SnapshotLines(records))) == SnapshotLines(records)
    ensures ParseLines(ReadAllLines(FileText(SnapshotLines(records)))) == Ok(Reread(records))
  {
    var lines := SnapshotLines(records);
    forall i | 0 <= i < |lines| ensures '\n' !in lines[i] && '\r' !in lines[i]
    {
      if i == 0 {
        HeaderHasNoBreak();
      } else {
        LineHasNoBreak(records[i - 1]);
      }
    }
    ReadWrittenLines(lines);
    SnapshotRoundTrip(records);
  }

  /** The header holds no line break. */
  lemma HeaderHasNoBreak()
    ensures '\n' !in Header && '\r' !in Header
  {
    assert '\n' !in "id" && '\r' !in "id";
    assert '\n' !in ",type,name," && '\r' !in ",type,name,";
    assert '\n' !in "status," && '\r' !in "status,";
    assert '\n' !in "description," && '\r' !in "description,";
    assert '\n' !in "epic,startTime,duration" && '\r' !in "epic,startTime,duration";
  }

  /** The record lines of a snapshot, without the header. */
  function RecordLines(records: seq<Task>): (r: seq<string>)
    ensures |r| == |records|
    ensures forall i :: 0 <= i < |records| ==> r[i] == EncodeLine(records[i])
  {
    seq(|records|, i requires 0 <= i < |records| => EncodeLine(records[i]))
  }

  /** What loading reads back for each record, in order. */
  function Reread(records: seq<Task>): (r: seq<Line>)
    ensures |r| == |records|
    ensures forall i :: 0 <= i < |records| ==> r[i] == Line(Reloaded(records[i]), EpicColumn(records[i]))
  {
    if records == [] then [] else [Line(Reloaded(records[0]), EpicColumn(records[0]))] + Reread(records[1..])
  }

  lemma {:induction false} RecordLinesRoundTrip(records: seq<Task>)
    requires forall i :: 0 <= i < |records| ==> Encodable(records[i])
    ensures ParseLines(RecordLines(records)) ==
      Ok(Reread(records))
  {
    var lines := RecordLines(records);
    if records != [] {
      var t := records[0];
      RecordLineShape(t);
      LineRoundTrip(t);
      assert lines[1..] == RecordLines(records[1..]);
      RecordLinesRoundTrip(records[1..]);
    }
  }
}
