/**
 * The bytes `TaskbarIntegrationService.CreateWindowsShortcut` writes for a group's
 * taskbar shortcut: an 18-byte header, 52 bytes of fixed link fields (70 bytes in
 * all), then five NUL-terminated UTF-16LE strings. Strings are sequences of UTF-16
 * code units, as .NET strings are.
 *
 * The layout is the program's own: it is not the Shell Link format of [MS-SHLLINK]
 * section 2.1 (the header there is 76 bytes with a 4-byte HeaderSize and a 16-byte
 * CLSID, and strings are StringData structures announced by LinkFlags).
 */
module Shortcut {
  import Lists

  newtype Byte = x: int | 0 <= x < 0x100
  newtype CodeUnit = x: int | 0 <= x < 0x1_0000

  function Pow256(n: nat): (p: nat)
    ensures p >= 1
  {
    if n == 0 then 1 else 256 * Pow256(n - 1)
  }

  /** `v` as `n` bytes, least significant first. */
  function LittleEndian(v: nat, n: nat): (r: seq<Byte>)
    requires v < Pow256(n)
    ensures |r| == n
  {
    if n == 0 then [] else [(v % 256) as Byte] + LittleEndian(v / 256, n - 1)
  }

  /** The code unit whose little-endian bytes are `lo`, `hi`. */
  function CodeUnitOf(lo: Byte, hi: Byte): CodeUnit {
    (hi as int * 256 + lo as int) as CodeUnit
  }

  lemma CodeUnitOfLittleEndian(u: CodeUnit)
    ensures CodeUnitOf(LittleEndian(u as nat, 2)[0], LittleEndian(u as nat, 2)[1]) == u
  {
  }

  /** Code units laid out as UTF-16LE: two bytes each, low byte first. */
  function Utf16Le(units: seq<CodeUnit>): (r: seq<Byte>)
    ensures |r| == 2 * |units|
  {
    if units == [] then [] else LittleEndian(units[0] as nat, 2) + Utf16Le(units[1..])
  }

  lemma {:induction false} Utf16LeConcat(a: seq<CodeUnit>, b: seq<CodeUnit>)
    ensures Utf16Le(a + b) == Utf16Le(a) + Utf16Le(b)
  {
    if a == [] {
      assert a + b == b;
    } else {
      assert (a + b)[1..] == a[1..] + b;
      Utf16LeConcat(a[1..], b);
    }
  }

  /** Reading pairs of bytes back as code units (a trailing odd byte is ignored). */
  function CodeUnits(bytes: seq<Byte>): seq<CodeUnit>
    decreases |bytes|
  {
    if |bytes| < 2 then [] else [CodeUnitOf(bytes[0], bytes[1])] + CodeUnits(bytes[2..])
  }

  lemma {:induction false} CodeUnitsUtf16Le(units: seq<CodeUnit>)
    ensures CodeUnits(Utf16Le(units)) == units
  {
    if units != [] {
      var b := Utf16Le(units);
      assert b[2..] == Utf16Le(units[1..]);
      CodeUnitOfLittleEndian(units[0]);
      CodeUnitsUtf16Le(units[1..]);
    }
  }

  predicate IsHighSurrogate(u: CodeUnit) { 0xD800 <= u <= 0xDBFF }
  predicate IsLowSurrogate(u: CodeUnit) { 0xDC00 <= u <= 0xDFFF }

  const ReplacementCharacter: CodeUnit := 0xFFFD

  /** Every surrogate is part of a high-low pair. */
  predicate WellFormed(units: seq<CodeUnit>)
    decreases |units|
  {
    if units == [] then true
    else if IsHighSurrogate(units[0]) then |units| >= 2 && IsLowSurrogate(units[1]) && WellFormed(units[2..])
    else !IsLowSurrogate(units[0]) && WellFormed(units[1..])
  }

  /**
   * The code units `Encoding.Unicode` actually encodes: a surrogate that is not part
   * of a high-low pair is replaced by U+FFFD, every other unit is kept.
   */
  function Replaced(units: seq<CodeUnit>): (r: seq<CodeUnit>)
    ensures |r| == |units|
    ensures forall k | 0 <= k < |r| :: r[k] == units[k] || (r[k] == ReplacementCharacter && (IsHighSurrogate(units[k]) || IsLowSurrogate(units[k])))
    decreases |units|
  {
    if units == [] then []
    else if IsHighSurrogate(units[0]) && |units| >= 2 && IsLowSurrogate(units[1]) then
      var rest := Replaced(units[2..]);
      assert forall k | 2 <= k < |units| :: units[k] == units[2..][k - 2];
      units[..2] + rest
    else
      var rest := Replaced(units[1..]);
      assert forall k | 1 <= k < |units| :: units[k] == units[1..][k - 1];
      [if IsHighSurrogate(units[0]) || IsLowSurrogate(units[0]) then ReplacementCharacter else units[0]] + rest
  }

  /** Well-formed text is encoded as it is. */
  lemma {:induction false} ReplacedWellFormed(units: seq<CodeUnit>)
    requires WellFormed(units)
    ensures Replaced(units) == units
    decreases |units|
  {
    if units != [] {
      if IsHighSurrogate(units[0]) {
        ReplacedWellFormed(units[2..]);
        assert units == units[..2] + units[2..];
      } else {
        ReplacedWellFormed(units[1..]);
        assert units == [units[0]] + units[1..];
      }
    }
  }

  /** Whatever the input, what gets encoded is well-formed. */
  lemma {:induction false} ReplacedIsWellFormed(units: seq<CodeUnit>)
    ensures WellFormed(Replaced(units))
    decreases |units|
  {
    var r := Replaced(units);
    if units != [] {
      if IsHighSurrogate(units[0]) && |units| >= 2 && IsLowSurrogate(units[1]) {
        ReplacedIsWellFormed(units[2..]);
        assert r[2..] == Replaced(units[2..]);
      } else {
        ReplacedIsWellFormed(units[1..]);
        assert r[1..] == Replaced(units[1..]);
      }
    }
  }

  lemma {:induction false} WellFormedConcat(a: seq<CodeUnit>, b: seq<CodeUnit>)
    requires WellFormed(a) && WellFormed(b)
    ensures WellFormed(a + b)
    decreases |a|
  {
    if a == [] {
      assert a + b == b;
    } else if IsHighSurrogate(a[0]) {
      assert (a + b)[2..] == a[2..] + b;
      WellFormedConcat(a[2..], b);
    } else {
      assert (a + b)[1..] == a[1..] + b;
      WellFormedConcat(a[1..], b);
    }
  }

  /** `Encoding.Unicode.GetBytes`. */
  function GetBytes(s: seq<CodeUnit>): (r: seq<Byte>)
    ensures |r| == 2 * |s|
  {
    Utf16Le(Replaced(s))
  }

  /** `Encoding.Unicode.GetBytes(s + "\0")`: the string and a two-byte terminator. */
  function Terminated(s: seq<CodeUnit>): (r: seq<Byte>)
    ensures |r| == 2 * (|s| + 1)
  {
    GetBytes(s + [0])
  }

  lemma {:induction false} AsciiWellFormed(s: seq<CodeUnit>)
    requires forall k | 0 <= k < |s| :: s[k] < 128
    ensures WellFormed(s)
  {
    if s != [] {
      AsciiWellFormed(s[1..]);
    }
  }

  /** `--group-id "` as code units. */
  const GroupIdOption: seq<CodeUnit> := [0x2D, 0x2D, 0x67, 0x72, 0x6F, 0x75, 0x70, 0x2D, 0x69, 0x64, 0x20, 0x22]
  /** `"` as a code unit. */
  const Quote: seq<CodeUnit> := [0x22]
  /** `Taskbar Group: ` as code units. */
  const DescriptionCaption: seq<CodeUnit> := [0x54, 0x61, 0x73, 0x6B, 0x62, 0x61, 0x72, 0x20, 0x47, 0x72, 0x6F, 0x75, 0x70, 0x3A, 0x20]

  /** The fixed text around the group's id and name is printable ASCII. */
  lemma CaptionsAscii()
    ensures forall k | 0 <= k < |GroupIdOption| :: 0 < GroupIdOption[k] < 128
    ensures forall k | 0 <= k < |Quote| :: 0 < Quote[k] < 128
    ensures forall k | 0 <= k < |DescriptionCaption| :: 0 < DescriptionCaption[k] < 128
  {
  }

  /** `--group-id "<id>"`. */
  function Arguments(id: seq<CodeUnit>): (r: seq<CodeUnit>)
    ensures |r| == |id| + 13
  {
    GroupIdOption + id + Quote
  }

  /** `Taskbar Group: <name>`. */
  function Description(name: seq<CodeUnit>): (r: seq<CodeUnit>)
    ensures |r| == |name| + 15
  {
    DescriptionCaption + name
  }

  /** The 18 bytes written first, one `Write(byte)` each. */
  const Header: seq<Byte> := [0x4C, 0x00, 0x00, 0x01, 0x14, 0x02, 0x00, 0x00, 0x00,
                              0x00, 0x00, 0xC0, 0x00, 0x00, 0x00, 0x00, 0x00, 0x46]

  /**
   * The fixed fields after the header, in write order, as (value, width in bytes):
   * link flags and file attributes (`uint`), three times (`long`), icon index and
   * show command (`int`), hotkey and a reserved field (`short`), two reserved `int`s.
   */
  const LinkFieldTable: seq<(nat, nat)> := [(0, 4), (0, 4), (0, 8), (0, 8), (0, 8), (0, 4), (1, 4), (0, 2), (0, 2), (0, 4), (0, 4)]

  predicate Fits(field: (nat, nat)) {
    field.0 < Pow256(field.1)
  }

  /** The number of bytes the fields take. */
  function Width(fields: seq<(nat, nat)>): nat {
    if fields == [] then 0 else Width(fields[..|fields| - 1]) + fields[|fields| - 1].1
  }

  /** The fields written one after another, each least significant byte first. */
  function FieldBytes(fields: seq<(nat, nat)>): (r: seq<Byte>)
    requires forall k | 0 <= k < |fields| :: Fits(fields[k])
    ensures |r| == Width(fields)
  {
    if fields == [] then []
    else
      var last := fields[|fields| - 1];
      assert Fits(last);
      FieldBytes(fields[..|fields| - 1]) + LittleEndian(last.0, last.1)
  }

  lemma {:induction false} ZeroBytes(n: nat)
    ensures forall k | 0 <= k < n :: LittleEndian(0, n)[k] == 0
  {
    if n > 0 {
      ZeroBytes(n - 1);
    }
  }

  /** Fields whose values are all zero are written as zero bytes. */
  lemma {:induction false} ZeroFields(fields: seq<(nat, nat)>)
    requires forall k | 0 <= k < |fields| :: fields[k].0 == 0
    ensures forall k | 0 <= k < |fields| :: Fits(fields[k])
    ensures forall k | 0 <= k < |FieldBytes(fields)| :: FieldBytes(fields)[k] == 0
    decreases |fields|
  {
    if fields != [] {
      var last := fields[|fields| - 1];
      ZeroFields(fields[..|fields| - 1]);
      ZeroBytes(last.1);
    }
  }

  lemma LinkFieldsFit()
    ensures forall k | 0 <= k < |LinkFieldTable| :: Fits(LinkFieldTable[k])
  {
  }

  function LinkFields(): (r: seq<Byte>) {
    LinkFieldsFit();
    FieldBytes(LinkFieldTable)
  }

  /** Fields all zero but the `j`-th, which is 1: the bytes are zero except a 1 where that field starts. */
  lemma {:induction false} OneField(fields: seq<(nat, nat)>, j: nat)
    requires forall k | 0 <= k < |fields| :: Fits(fields[k])
    requires j < |fields| && fields[j].1 > 0
    requires forall k | 0 <= k < |fields| :: fields[k].0 == if k == j then 1 else 0
    ensures forall k | 0 <= k < Width(fields) :: FieldBytes(fields)[k] == if k == Width(fields[..j]) then 1 else 0
    decreases |fields|
  {
    var n := |fields|;
    var front, last := fields[..n - 1], fields[n - 1];
    assert forall k | 0 <= k < |front| :: front[k] == fields[k];
    if j == n - 1 {
      ZeroFields(front);
      ZeroBytes(last.1 - 1);
      assert LittleEndian(1, last.1) == [1] + LittleEndian(0, last.1 - 1);
    } else {
      OneField(front, j);
      assert front[..j] == fields[..j];
      WidthPrefix(front, j);
      ZeroBytes(last.1);
    }
  }

  /** The width of the first `k + 1` fields is that of the first `k` and the `k`-th field's. */
  lemma WidthNext(fields: seq<(nat, nat)>, k: nat)
    requires k < |fields|
    ensures Width(fields[..k + 1]) == Width(fields[..k]) + fields[k].1
  {
    assert fields[..k + 1][..k] == fields[..k];
  }

  /** A field starts no later than its own width before the end of all fields. */
  lemma {:induction false} WidthPrefix(fields: seq<(nat, nat)>, j: nat)
    requires j < |fields|
    ensures Width(fields[..j]) + fields[j].1 <= Width(fields)
    decreases |fields|
  {
    var n := |fields|;
    if j < n - 1 {
      WidthPrefix(fields[..n - 1], j);
      assert fields[..n - 1][..j] == fields[..j];
    } else {
      WidthNext(fields, j);
      assert fields[..j + 1] == fields;
    }
  }

  /** The link fields are 52 bytes, all zero except the show command 1, 36 bytes in. */
  lemma LinkFieldsBytes()
    ensures |LinkFields()| == 52
    ensures forall k | 0 <= k < 52 :: LinkFields()[k] == if k == 36 then 1 else 0
  {
    LinkFieldsFit();
    LinkFieldValues();
    LinkFieldWidths();
    OneField(LinkFieldTable, 6);
  }

  lemma LinkFieldValues()
    ensures forall k | 0 <= k < |LinkFieldTable| :: LinkFieldTable[k].0 == if k == 6 then 1 else 0
    ensures LinkFieldTable[6].1 == 4
  {
  }

  lemma LinkFieldWidths()
    ensures Width(LinkFieldTable[..6]) == 36 && Width(LinkFieldTable) == 52
  {
    var t := LinkFieldTable;
    assert Width(t[..0]) == 0;
    WidthNext(t, 0); WidthNext(t, 1); WidthNext(t, 2); WidthNext(t, 3); WidthNext(t, 4); WidthNext(t, 5);
    WidthNext(t, 6); WidthNext(t, 7); WidthNext(t, 8); WidthNext(t, 9); WidthNext(t, 10);
    assert t[..11] == t;
  }

  /** The five strings after the fixed prefix. */
  function Strings(appPath: seq<CodeUnit>, id: seq<CodeUnit>, workDir: seq<CodeUnit>, name: seq<CodeUnit>): seq<seq<CodeUnit>> {
    [appPath, Arguments(id), workDir, Description(name), appPath]
  }

  /**
   * The shortcut file for the group with id `id` and name `name`, for the program at
   * `appPath` started in `workDir`.
   */
  function ShortcutBytes(appPath: seq<CodeUnit>, id: seq<CodeUnit>, workDir: seq<CodeUnit>, name: seq<CodeUnit>): (r: seq<Byte>)
    ensures |r| >= 70
  {
    LinkFieldsBytes();
    Header + LinkFields() + EncodedAll(Strings(appPath, id, workDir, name))
  }

  /** The fixed 70-byte prefix: the header bytes, then zeros except the show command 1 at offset 54. */
  lemma ShortcutPrefix(appPath: seq<CodeUnit>, id: seq<CodeUnit>, workDir: seq<CodeUnit>, name: seq<CodeUnit>)
    ensures var b := ShortcutBytes(appPath, id, workDir, name);
      |b| >= 70 && b[..18] == Header
      && forall k | 18 <= k < 70 :: b[k] == if k == 54 then 1 else 0
  {
    LinkFieldsBytes();
    var prefix := Header + LinkFields();
    var b := ShortcutBytes(appPath, id, workDir, name);
    assert b == prefix + b[70..];
    assert forall k | 18 <= k < 70 :: b[k] == LinkFields()[k - 18];
  }

  /** The length: the prefix and two bytes per code unit of the five strings and their terminators. */
  lemma ShortcutLength(appPath: seq<CodeUnit>, id: seq<CodeUnit>, workDir: seq<CodeUnit>, name: seq<CodeUnit>)
    ensures |ShortcutBytes(appPath, id, workDir, name)|
      == 70 + 2 * (|appPath| + (|id| + 13) + |workDir| + (|name| + 15) + |appPath| + 5)
  {
    LinkFieldsBytes();
    EncodedFive(Strings(appPath, id, workDir, name));
  }

  /** Cuts `units` at each NUL; whatever follows the last NUL is not a complete string and is dropped. */
  function SplitAtNul(units: seq<CodeUnit>): seq<seq<CodeUnit>>
    decreases |units|
  {
    var i := Lists.IndexOf(units, 0);
    if i < 0 then [] else [units[..i]] + SplitAtNul(units[i + 1..])
  }

  /** Strings one after another, each followed by a NUL. */
  function Joined(strings: seq<seq<CodeUnit>>): seq<CodeUnit> {
    if strings == [] then [] else strings[0] + [0] + Joined(strings[1..])
  }

  /** Each string encoded with its terminator, one after another. */
  function EncodedAll(strings: seq<seq<CodeUnit>>): seq<Byte> {
    if strings == [] then [] else Terminated(strings[0]) + EncodedAll(strings[1..])
  }

  /** Cutting NUL-terminated strings at the NULs gives them back, when none holds a NUL itself. */
  lemma {:induction false} SplitJoined(strings: seq<seq<CodeUnit>>)
    requires forall k | 0 <= k < |strings| :: 0 !in strings[k]
    ensures SplitAtNul(Joined(strings)) == strings
  {
    if strings == [] {
      assert SplitAtNul([]) == [];
    } else {
      var s, units := strings[0], Joined(strings);
      Lists.IndexOfAt(units, 0, |s|);
      assert units[..|s|] == s;
      assert units[|s| + 1..] == Joined(strings[1..]);
      SplitJoined(strings[1..]);
    }
  }

  /** Well-formed strings are encoded exactly: their code units laid out as UTF-16LE. */
  lemma {:induction false} EncodedAllWellFormed(strings: seq<seq<CodeUnit>>)
    requires forall k | 0 <= k < |strings| :: WellFormed(strings[k])
    ensures EncodedAll(strings) == Utf16Le(Joined(strings))
  {
    if strings != [] {
      var s := strings[0];
      AsciiWellFormed([0]);
      WellFormedConcat(s, [0]);
      ReplacedWellFormed(s + [0]);
      EncodedAllWellFormed(strings[1..]);
      Utf16LeConcat(s + [0], Joined(strings[1..]));
    }
  }

  lemma EncodedAllOne(x: seq<CodeUnit>)
    ensures EncodedAll([x]) == Terminated(x)
  {
    assert [x][1..] == [];
  }

  lemma {:induction false} EncodedAllConcat(a: seq<seq<CodeUnit>>, b: seq<seq<CodeUnit>>)
    ensures EncodedAll(a + b) == EncodedAll(a) + EncodedAll(b)
  {
    if a == [] {
      assert a + b == b;
    } else {
      assert (a + b)[1..] == a[1..] + b;
      EncodedAllConcat(a[1..], b);
    }
  }

  /** Five strings encoded together are the five encodings one after another. */
  lemma EncodedFive(ss: seq<seq<CodeUnit>>)
    requires |ss| == 5
    ensures EncodedAll(ss)
      == Terminated(ss[0]) + Terminated(ss[1]) + Terminated(ss[2]) + Terminated(ss[3]) + Terminated(ss[4])
  {
    assert ss == [ss[0]] + [ss[1]] + [ss[2]] + [ss[3]] + [ss[4]];
    EncodedAllConcat([ss[0]] + [ss[1]] + [ss[2]] + [ss[3]], [ss[4]]);
    EncodedAllConcat([ss[0]] + [ss[1]] + [ss[2]], [ss[3]]);
    EncodedAllConcat([ss[0]] + [ss[1]], [ss[2]]);
    EncodedAllConcat([ss[0]], [ss[1]]);
    EncodedAllOne(ss[0]);
    EncodedAllOne(ss[1]);
    EncodedAllOne(ss[2]);
    EncodedAllOne(ss[3]);
    EncodedAllOne(ss[4]);
  }

  /** The command-line arguments hold no NUL and are well-formed when the id is. */
  lemma ArgumentsWellFormed(id: seq<CodeUnit>)
    requires 0 !in id && WellFormed(id)
    ensures 0 !in Arguments(id) && WellFormed(Arguments(id))
  {
    CaptionsAscii();
    AsciiWellFormed(GroupIdOption);
    AsciiWellFormed(Quote);
    WellFormedConcat(GroupIdOption, id);
    WellFormedConcat(GroupIdOption + id, Quote);
    assert 0 !in GroupIdOption && 0 !in Quote;
  }

  /** The description holds no NUL and is well-formed when the name is. */
  lemma DescriptionWellFormed(name: seq<CodeUnit>)
    requires 0 !in name && WellFormed(name)
    ensures 0 !in Description(name) && WellFormed(Description(name))
  {
    CaptionsAscii();
    AsciiWellFormed(DescriptionCaption);
    WellFormedConcat(DescriptionCaption, name);
    assert 0 !in DescriptionCaption;
  }

  /** The strings the group fills in hold no NUL and are well-formed when the group's id and name are. */
  lemma StringsWellFormed(appPath: seq<CodeUnit>, id: seq<CodeUnit>, workDir: seq<CodeUnit>, name: seq<CodeUnit>)
    requires 0 !in appPath && 0 !in id && 0 !in workDir && 0 !in name
    requires WellFormed(appPath) && WellFormed(id) && WellFormed(workDir) && WellFormed(name)
    ensures var ss := Strings(appPath, id, workDir, name);
      forall k | 0 <= k < |ss| :: WellFormed(ss[k]) && 0 !in ss[k]
  {
    ArgumentsWellFormed(id);
    DescriptionWellFormed(name);
  }

  /**
   * Round trip: when none of the five strings holds a NUL and each is well-formed,
   * the code units after the 70-byte prefix, cut at each NUL, are the five strings.
   */
  lemma ShortcutStrings(appPath: seq<CodeUnit>, id: seq<CodeUnit>, workDir: seq<CodeUnit>, name: seq<CodeUnit>)
    requires 0 !in appPath && 0 !in id && 0 !in workDir && 0 !in name
    requires WellFormed(appPath) && WellFormed(id) && WellFormed(workDir) && WellFormed(name)
    ensures SplitAtNul(CodeUnits(ShortcutBytes(appPath, id, workDir, name)[70..])) == Strings(appPath, id, workDir, name)
  {
    var ss := Strings(appPath, id, workDir, name);
    StringsWellFormed(appPath, id, workDir, name);
    LinkFieldsBytes();
    assert ShortcutBytes(appPath, id, workDir, name)[70..] == EncodedAll(ss);
    EncodedAllWellFormed(ss);
    CodeUnitsUtf16Le(Joined(ss));
    SplitJoined(ss);
  }

  /** The output stream of a `BinaryWriter`: what has been written so far. */
  class BinaryWriter {
    var written: seq<Byte>

    constructor ()
      ensures written == []
    {
      written := [];
    }

    /** `Write(byte)`. */
    method WriteByte(b: Byte)
      modifies this
      ensures written == old(written) + [b]
    {
      written := written + [b];
    }

    /** `Write(short)`, `Write(int)`, `Write(uint)`, `Write(long)` of a non-negative value: `n` = 2, 4, 4, 8 bytes. */
    method WriteInteger(v: nat, n: nat)
      requires v < Pow256(n)
      modifies this
      ensures written == old(written) + LittleEndian(v, n)
    {
      written := written + LittleEndian(v, n);
    }

    /** `Write(byte[])`. */
    method WriteBytes(bytes: seq<Byte>)
      modifies this
      ensures written == old(written) + bytes
    {
      written := written + bytes;
    }
  }

  /** `CreateWindowsShortcut`: the writes in the source's order, giving `ShortcutBytes`. */
  method CreateWindowsShortcut(appPath: seq<CodeUnit>, id: seq<CodeUnit>, workDir: seq<CodeUnit>, name: seq<CodeUnit>)
    returns (file: seq<Byte>)
    ensures file == ShortcutBytes(appPath, id, workDir, name)
  {
    var writer := new BinaryWriter();
    WriteEach(writer, Header);
    LinkFieldsFit();
    WriteFields(writer, LinkFieldTable);
    WriteStrings(writer, Strings(appPath, id, workDir, name));
    file := writer.written;
  }

  /** The five strings, each written as `Write(Encoding.Unicode.GetBytes(s + "\0"))`. */
  method WriteStrings(writer: BinaryWriter, ss: seq<seq<CodeUnit>>)
    requires |ss| == 5
    modifies writer
    ensures writer.written == old(writer.written) + EncodedAll(ss)
  {
    ghost var prefix := writer.written;
    writer.WriteBytes(GetBytes(ss[0] + [0]));
    writer.WriteBytes(GetBytes(ss[1] + [0]));
    writer.WriteBytes(GetBytes(ss[2] + [0]));
    writer.WriteBytes(GetBytes(ss[3] + [0]));
    writer.WriteBytes(GetBytes(ss[4] + [0]));
    EncodedFive(ss);
    Regroup(prefix, Terminated(ss[0]), Terminated(ss[1]), Terminated(ss[2]), Terminated(ss[3]), Terminated(ss[4]));
  }

  lemma Regroup(p: seq<Byte>, t0: seq<Byte>, t1: seq<Byte>, t2: seq<Byte>, t3: seq<Byte>, t4: seq<Byte>)
    ensures p + t0 + t1 + t2 + t3 + t4 == p + (t0 + t1 + t2 + t3 + t4)
  {
  }

  /** Bytes written one `Write(byte)` at a time. */
  method WriteEach(writer: BinaryWriter, bytes: seq<Byte>)
    modifies writer
    ensures writer.written == old(writer.written) + bytes
  {
    for k := 0 to |bytes|
      invariant writer.written == old(writer.written) + bytes[..k]
    {
      writer.WriteByte(bytes[k]);
      assert bytes[..k + 1] == bytes[..k] + [bytes[k]];
    }
    assert bytes[..|bytes|] == bytes;
  }

  /** Fields written one integer write each. */
  method WriteFields(writer: BinaryWriter, fields: seq<(nat, nat)>)
    requires forall k | 0 <= k < |fields| :: Fits(fields[k])
    modifies writer
    ensures writer.written == old(writer.written) + FieldBytes(fields)
  {
    for k := 0 to |fields|
      invariant writer.written == old(writer.written) + FieldBytes(fields[..k])
    {
      var field := fields[k];
      assert Fits(field);
      writer.WriteInteger(field.0, field.1);
      assert fields[..k + 1][..k] == fields[..k];
    }
    assert fields[..|fields|] == fields;
  }
}
