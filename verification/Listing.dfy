/** Listings of threads, processes, code segments, libraries and executables: variable-length records
    packed into a buffer of bounded size, and the client's walk over them. */
module Listing {
  import opened Wrappers
  import opened CodeMemory

  type Char = c: int | 0 <= c < 0x1_0000

  /** How an entry is laid out: bytes of fixed fields, then a 16-bit length for each name, then the names.
      `slack` bytes of the entry's declared size lie past the names. */
  datatype Layout = Layout(fields: nat, names: nat, slack: nat)

  /** The listings a debug agent can ask for. */
  datatype ListId = Processes | Threads | CodeSegments | XipLibraries | Executables

  const PROCESSES := Layout(16, 2, 2)
  const THREADS := Layout(44, 1, 0)
  const CODE_SEGMENTS := Layout(40, 1, 0)
  const XIP_LIBRARIES := Layout(32, 1, 0)
  const EXECUTABLES := Layout(12, 1, 0)

  function LayoutOf(id: ListId): Layout {
    match id
    case Processes => PROCESSES
    case Threads => THREADS
    case CodeSegments => CODE_SEGMENTS
    case XipLibraries => XIP_LIBRARIES
    case Executables => EXECUTABLES
  }

  /** The size declared for an entry, each member at a multiple of its own size; one character of the names is in it. */
  function DeclaredSize(id: ListId): nat {
    match id
    case Processes => 24
    case Threads => 48
    case CodeSegments => 44
    case XipLibraries => 36
    case Executables => 16
  }

  /** The offset declared for an entry's first length, the other following it; the names follow the lengths. */
  function DeclaredLengthAt(id: ListId): nat {
    match id
    case Processes => 16
    case Threads => 44
    case CodeSegments => 40
    case XipLibraries => 32
    case Executables => 12
  }

  /** A process entry has the file name and the dynamic name, every other entry one name. */
  function DeclaredNames(id: ListId): nat {
    if id.Processes? then 2 else 1
  }

  datatype Record = Record(fields: seq<Byte>, names: seq<seq<Char>>)

  predicate ValidRecord(layout: Layout, record: Record) {
    && |record.fields| == layout.fields
    && |record.names| == layout.names
    && (forall i :: 0 <= i < |record.names| ==> |record.names[i]| < 0x1_0000)
  }

  function Align4(n: nat): (aligned: nat)
    ensures n <= aligned < n + 4 && aligned % 4 == 0
  {
    (n + 3) / 4 * 4
  }

  function Characters(names: seq<seq<Char>>): nat
    decreases |names|
  {
    if names == [] then 0 else |names[0]| + Characters(names[1..])
  }

  /** The size an entry reports. */
  function GetSize(layout: Layout, record: Record): nat {
    layout.fields + 2 * layout.names + layout.slack + 2 * Characters(record.names)
  }

  /** The size of a listing of all records. */
  function TotalSize(layout: Layout, records: seq<Record>): nat
    decreases |records|
  {
    if records == [] then 0
    else TotalSize(layout, records[..|records| - 1]) + Align4(GetSize(layout, records[|records| - 1]))
  }

  // ---------------------------------------------------------------- bytes of a record

  function Wide(c: Char): (bytes: seq<Byte>)
    ensures |bytes| == 2
  {
    [c % 0x100, c / 0x100]
  }

  function Narrow(low: Byte, high: Byte): Char {
    low + 0x100 * high
  }

  function WideName(name: seq<Char>): (bytes: seq<Byte>)
    ensures |bytes| == 2 * |name|
    decreases |name|
  {
    if name == [] then [] else WideName(name[..|name| - 1]) + Wide(name[|name| - 1])
  }

  function Lengths(names: seq<seq<Char>>): (bytes: seq<Byte>)
    requires forall i :: 0 <= i < |names| ==> |names[i]| < 0x1_0000
    ensures |bytes| == 2 * |names|
    decreases |names|
  {
    if names == [] then [] else Wide(|names[0]|) + Lengths(names[1..])
  }

  function Texts(names: seq<seq<Char>>): (bytes: seq<Byte>)
    ensures |bytes| == 2 * Characters(names)
    decreases |names|
  {
    if names == [] then [] else WideName(names[0]) + Texts(names[1..])
  }

  function Encode(layout: Layout, record: Record): (bytes: seq<Byte>)
    requires ValidRecord(layout, record)
    ensures |bytes| + layout.slack == GetSize(layout, record)
  {
    record.fields + Lengths(record.names) + Texts(record.names)
  }

  /** A number as the target stores it, the least significant byte first. */
  ghost predicate StoredAt(bytes: seq<Byte>, at: nat, value: nat) {
    at + 2 <= |bytes| && var low: int, high: int := bytes[at], bytes[at + 1]; value == low + 0x100 * high
  }

  /** The name's length and characters as the entry declares them, n bytes of characters after the first. */
  ghost predicate NameAt(id: ListId, bytes: seq<Byte>, j: nat, n: nat, name: seq<Char>) {
    var textAt := DeclaredLengthAt(id) + 2 * DeclaredNames(id) + n;
    && j < DeclaredNames(id) && StoredAt(bytes, DeclaredLengthAt(id) + 2 * j, |name|)
    && (forall k :: 0 <= k < |name| ==> StoredAt(bytes, textAt + 2 * k, name[k]))
  }

  lemma StoredInSlice(bytes: seq<Byte>, at: nat, n: nat, i: nat, value: nat)
    requires at + n <= |bytes| && StoredAt(bytes[at..at + n], i, value)
    ensures StoredAt(bytes, at + i, value)
  {
    assert bytes[at..at + n][i] == bytes[at + i] && bytes[at..at + n][i + 1] == bytes[at + i + 1];
  }

  lemma StoredInFront(bytes: seq<Byte>, more: seq<Byte>, i: nat, value: nat)
    requires StoredAt(bytes, i, value)
    ensures StoredAt(bytes + more, i, value)
  {
  }

  lemma WideIsStored(bytes: seq<Byte>, value: Char)
    ensures StoredAt(bytes + Wide(value), |bytes|, value)
    ensures StoredAt(Wide(value), 0, value)
  {
    assert (bytes + Wide(value))[|bytes|] == Wide(value)[0] && (bytes + Wide(value))[|bytes| + 1] == Wide(value)[1];
  }

  lemma {:induction false} WideNameAt(name: seq<Char>, k: nat)
    ensures k < |name| ==> StoredAt(WideName(name), 2 * k, name[k])
    decreases |name|
  {
    hide StoredAt;
    hide Wide;
    if k < |name| {
      var front := name[..|name| - 1];
      if k < |front| {
        WideNameAt(front, k);
        StoredInFront(WideName(front), Wide(name[|front|]), 2 * k, name[k]);
      } else {
        WideIsStored(WideName(front), name[k]);
      }
    }
  }

  /** The pieces of an entry where it declares them. */
  lemma PlacedAt(id: ListId, bytes: seq<Byte>, j: nat, n: nat, name: seq<Char>, lengthAt: nat, textAt: nat)
    requires |name| < 0x1_0000 && j < DeclaredNames(id)
    requires lengthAt == DeclaredLengthAt(id) + 2 * j && textAt == DeclaredLengthAt(id) + 2 * DeclaredNames(id) + n
    requires lengthAt + 2 <= textAt && textAt + 2 * |name| <= |bytes|
    requires bytes[lengthAt..lengthAt + 2] == Wide(|name|) && bytes[textAt..textAt + 2 * |name|] == WideName(name)
    ensures NameAt(id, bytes, j, n, name)
  {
    hide StoredAt;
    hide Wide;
    hide WideName;
    hide DeclaredLengthAt;
    hide DeclaredNames;
    WideIsStored([], |name|);
    StoredInSlice(bytes, lengthAt, 2, 0, |name|);
    forall k | 0 <= k < |name| ensures StoredAt(bytes, textAt + 2 * k, name[k]) {
      WideNameAt(name, k);
      StoredInSlice(bytes, textAt, 2 * |name|, 2 * k, name[k]);
    }
  }

  lemma SplitThree(a: seq<Byte>, b: seq<Byte>, c: seq<Byte>)
    ensures var all := a + b + c;
      all[|a|..|a| + |b|] == b && all[|a| + |b|..|a| + |b| + |c|] == c
  {
  }

  lemma SplitFive(a: seq<Byte>, b: seq<Byte>, c: seq<Byte>, d: seq<Byte>, e: seq<Byte>)
    ensures var all := a + (b + c) + (d + e);
      && all[|a|..|a| + |b|] == b && all[|a| + |b|..|a| + |b| + |c|] == c
      && all[|a| + |b| + |c|..|a| + |b| + |c| + |d|] == d
      && all[|a| + |b| + |c| + |d|..|a| + |b| + |c| + |d| + |e|] == e
  {
  }

  /** In each of the five listings the names and their lengths stand where the entry declares them, the dynamic name of
      a process right after its file name. */
  lemma NamesStandWhereDeclared(id: ListId, record: Record)
    requires ValidRecord(LayoutOf(id), record)
    ensures var bytes := Encode(LayoutOf(id), record);
      && |record.names| == DeclaredNames(id) && bytes[..DeclaredLengthAt(id)] == record.fields
      && NameAt(id, bytes, 0, 0, record.names[0])
      && (id.Processes? ==> NameAt(id, bytes, 1, 2 * |record.names[0]|, record.names[1]))
  {
    hide Wide;
    hide WideName;
    hide NameAt;
    var bytes, first := Encode(LayoutOf(id), record), record.names[0];
    if id == Processes {
      var second := record.names[1];
      assert record.names[1..] == [second] && record.names[1..][1..] == [];
      assert Lengths([second]) == Wide(|second|) && Texts([second]) == WideName(second);
      hide Lengths;
      hide Texts;
      SplitFive(record.fields, Wide(|first|), Wide(|second|), WideName(first), WideName(second));
      PlacedAt(id, bytes, 0, 0, first, 16, 20);
      PlacedAt(id, bytes, 1, 2 * |first|, second, 18, 20 + 2 * |first|);
    } else {
      assert record.names[1..] == [];
      assert Lengths(record.names) == Wide(|first|) && Texts(record.names) == WideName(first);
      hide Lengths;
      hide Texts;
      SplitThree(record.fields, Wide(|first|), WideName(first));
      PlacedAt(id, bytes, 0, 0, first, |record.fields|, |record.fields| + 2);
    }
  }

  /** Bytes hold the records one after another, each at a multiple of four; what lies between is not said. */
  ghost predicate Packed(layout: Layout, bytes: seq<Byte>, records: seq<Record>)
    decreases |records|
  {
    if records == [] then bytes == []
    else
      var last := records[|records| - 1];
      var at := |bytes| - Align4(GetSize(layout, last));
      && ValidRecord(layout, last)
      && at >= 0
      && bytes[at..at + |Encode(layout, last)|] == Encode(layout, last)
      && Packed(layout, bytes[..at], records[..|records| - 1])
  }

  lemma {:induction false} PackedSize(layout: Layout, bytes: seq<Byte>, records: seq<Record>)
    ensures Packed(layout, bytes, records) ==> |bytes| == TotalSize(layout, records)
    decreases |records|
  {
    if Packed(layout, bytes, records) {
      if records == [] {
      } else {
        var at := |bytes| - Align4(GetSize(layout, records[|records| - 1]));
        PackedSize(layout, bytes[..at], records[..|records| - 1]);
      }
    }
  }

  lemma PackedAppend(layout: Layout, bytes: seq<Byte>, more: seq<Byte>, records: seq<Record>, record: Record)
    requires Packed(layout, bytes, records) && ValidRecord(layout, record)
    requires |more| == Align4(GetSize(layout, record))
    requires more[..|Encode(layout, record)|] == Encode(layout, record)
    ensures Packed(layout, bytes + more, records + [record])
  {
    hide Encode;
    hide ValidRecord;
    hide GetSize;
    hide Align4;
    assert (records + [record])[..|records|] == records;
    assert (bytes + more)[..|bytes|] == bytes;
    assert (bytes + more)[|bytes|..|bytes| + |Encode(layout, record)|] == more[..|Encode(layout, record)|];
  }

  // ---------------------------------------------------------------- the client's walk

  function ReadName(bytes: seq<Byte>): (name: seq<Char>)
    requires |bytes| % 2 == 0
    ensures |name| == |bytes| / 2
    decreases |bytes|
  {
    if bytes == [] then []
    else ReadName(bytes[..|bytes| - 2]) + [Narrow(bytes[|bytes| - 2], bytes[|bytes| - 1])]
  }

  function ReadLengths(bytes: seq<Byte>, count: nat): (lengths: seq<nat>)
    requires |bytes| >= 2 * count
    ensures |lengths| == count
    decreases count
  {
    if count == 0 then [] else [Narrow(bytes[0], bytes[1])] + ReadLengths(bytes[2..], count - 1)
  }

  function Sum(lengths: seq<nat>): nat
    decreases |lengths|
  {
    if lengths == [] then 0 else lengths[0] + Sum(lengths[1..])
  }

  function ReadNames(bytes: seq<Byte>, lengths: seq<nat>): (names: seq<seq<Char>>)
    requires |bytes| >= 2 * Sum(lengths)
    decreases |lengths|
  {
    if lengths == [] then []
    else [ReadName(bytes[..2 * lengths[0]])] + ReadNames(bytes[2 * lengths[0]..], lengths[1..])
  }

  /** The record at the front, and the size it reports; nothing when the bytes end inside it. */
  function DecodeOne(layout: Layout, bytes: seq<Byte>): Option<(Record, nat)> {
    var nameAt := layout.fields + 2 * layout.names;
    if |bytes| < nameAt then None
    else
      var lengths := ReadLengths(bytes[layout.fields..nameAt], layout.names);
      if |bytes| < nameAt + 2 * Sum(lengths) then None
      else Some((Record(bytes[..layout.fields], ReadNames(bytes[nameAt..], lengths)),
                 nameAt + layout.slack + 2 * Sum(lengths)))
  }

  /** Steps from entry to entry by the aligned size each reports. */
  function DecodeAll(layout: Layout, bytes: seq<Byte>): Option<seq<Record>>
    decreases |bytes|
  {
    if bytes == [] then Some([])
    else
      match DecodeOne(layout, bytes)
      case None => None
      case Some((record, size)) =>
        if size == 0 || Align4(size) > |bytes| then None
        else
          match DecodeAll(layout, bytes[Align4(size)..])
          case None => None
          case Some(rest) => Some([record] + rest)
  }

  lemma {:induction false} ReadNameBack(name: seq<Char>)
    ensures ReadName(WideName(name)) == name
    decreases |name|
  {
    if name == [] {
    } else {
      ReadNameBack(name[..|name| - 1]);
      var bytes := WideName(name);
      assert bytes[..|bytes| - 2] == WideName(name[..|name| - 1]);
    }
  }

  function LengthsOf(names: seq<seq<Char>>): (lengths: seq<nat>)
    ensures |lengths| == |names|
    decreases |names|
  {
    if names == [] then [] else [|names[0]|] + LengthsOf(names[1..])
  }

  lemma {:induction false} ReadLengthsBack(names: seq<seq<Char>>)
    requires forall i :: 0 <= i < |names| ==> |names[i]| < 0x1_0000
    ensures ReadLengths(Lengths(names), |names|) == LengthsOf(names)
    ensures Sum(LengthsOf(names)) == Characters(names)
    decreases |names|
  {
    if names == [] {
    } else {
      ReadLengthsBack(names[1..]);
      assert Lengths(names)[2..] == Lengths(names[1..]);
      assert LengthsOf(names)[1..] == LengthsOf(names[1..]);
    }
  }

  lemma ReadNamesStep(first: seq<Byte>, rest: seq<Byte>, lengths: seq<nat>)
    requires lengths != [] && |first| == 2 * lengths[0] && |rest| >= 2 * Sum(lengths[1..])
    ensures ReadNames(first + rest, lengths) == [ReadName(first)] + ReadNames(rest, lengths[1..])
  {
    var bytes := first + rest;
    assert bytes[..2 * lengths[0]] == first && bytes[2 * lengths[0]..] == rest;
  }

  lemma FirstName(names: seq<seq<Char>>)
    requires names != []
    ensures Texts(names) == WideName(names[0]) + Texts(names[1..])
    ensures LengthsOf(names) != [] && LengthsOf(names)[0] == |names[0]| && LengthsOf(names)[1..] == LengthsOf(names[1..])
    ensures Characters(names) == |names[0]| + Characters(names[1..])
    ensures Sum(LengthsOf(names)) == |names[0]| + Sum(LengthsOf(names[1..]))
  {
    assert LengthsOf(names)[1..] == LengthsOf(names[1..]);
  }

  lemma NoNames(tail: seq<Byte>)
    ensures Sum(LengthsOf([])) == Characters([]) == 0
    ensures ReadNames(Texts([]) + tail, LengthsOf([])) == []
  {
  }

  lemma {:induction false} ReadNamesBack(names: seq<seq<Char>>, tail: seq<Byte>)
    ensures Sum(LengthsOf(names)) == Characters(names)
    ensures ReadNames(Texts(names) + tail, LengthsOf(names)) == names
    decreases |names|
  {
    hide Texts;
    hide LengthsOf;
    hide Characters;
    hide Sum;
    hide ReadNames;
    hide ReadName;
    hide WideName;
    if names == [] {
      NoNames(tail);
    } else {
      FirstName(names);
      ReadNamesBack(names[1..], tail);
      ReadNameBack(names[0]);
      ReadNamesStep(WideName(names[0]), Texts(names[1..]) + tail, LengthsOf(names));
      Associate(WideName(names[0]), Texts(names[1..]), tail);
    }
  }

  lemma DecodeParts(layout: Layout, fields: seq<Byte>, lens: seq<Byte>, rest: seq<Byte>)
    requires |fields| == layout.fields && |lens| == 2 * layout.names
    ensures var lengths := ReadLengths(lens, layout.names);
      DecodeOne(layout, fields + lens + rest) ==
        if |rest| < 2 * Sum(lengths) then None
        else Some((Record(fields, ReadNames(rest, lengths)),
                   layout.fields + 2 * layout.names + layout.slack + 2 * Sum(lengths)))
  {
    hide ReadNames;
    hide ReadLengths;
    hide Sum;
    var bytes := fields + lens + rest;
    var nameAt := layout.fields + 2 * layout.names;
    assert bytes[..layout.fields] == fields && bytes[layout.fields..nameAt] == lens && bytes[nameAt..] == rest;
  }

  /** A record is read back from its bytes, whatever follows them. */
  lemma DecodeOneBack(layout: Layout, record: Record, tail: seq<Byte>)
    ensures ValidRecord(layout, record) ==>
      DecodeOne(layout, Encode(layout, record) + tail) == Some((record, GetSize(layout, record)))
  {
    hide DecodeOne;
    hide ReadNames;
    hide ReadLengths;
    hide Lengths;
    hide Texts;
    hide LengthsOf;
    hide Characters;
    if ValidRecord(layout, record) {
      ReadLengthsBack(record.names);
      ReadNamesBack(record.names, tail);
      DecodeParts(layout, record.fields, Lengths(record.names), Texts(record.names) + tail);
      Associate(record.fields + Lengths(record.names), Texts(record.names), tail);
    }
  }

  lemma DecodeFirst(layout: Layout, bytes: seq<Byte>, record: Record, size: nat, rest: seq<Record>)
    requires bytes != [] && DecodeOne(layout, bytes) == Some((record, size))
    requires size > 0 && Align4(size) <= |bytes| && DecodeAll(layout, bytes[Align4(size)..]) == Some(rest)
    ensures DecodeAll(layout, bytes) == Some([record] + rest)
  {
    hide DecodeOne;
  }

  /** One record and whatever pads it, before bytes that decode. */
  lemma DecodeStep(layout: Layout, record: Record, chunk: seq<Byte>, more: seq<Byte>, rest: seq<Record>)
    requires ValidRecord(layout, record) && layout.names > 0
    requires |chunk| == Align4(GetSize(layout, record))
    requires chunk[..|Encode(layout, record)|] == Encode(layout, record)
    requires DecodeAll(layout, more) == Some(rest)
    ensures DecodeAll(layout, chunk + more) == Some([record] + rest)
  {
    hide DecodeAll;
    hide DecodeOne;
    hide Encode;
    hide ValidRecord;
    var code := Encode(layout, record);
    var pad := chunk[|code|..];
    assert chunk == code + pad;
    Associate(code, pad, more);
    DecodeOneBack(layout, record, pad + more);
    assert (chunk + more)[|chunk|..] == more;
    DecodeFirst(layout, chunk + more, record, GetSize(layout, record), rest);
  }

  /** Where the last record of packed bytes lies. */
  function LastAt(layout: Layout, bytes: seq<Byte>, records: seq<Record>): int
    requires records != []
  {
    |bytes| - Align4(GetSize(layout, records[|records| - 1]))
  }

  lemma PackedLast(layout: Layout, bytes: seq<Byte>, records: seq<Record>)
    requires Packed(layout, bytes, records) && records != []
    ensures var last, at := records[|records| - 1], LastAt(layout, bytes, records);
      && ValidRecord(layout, last) && 0 <= at <= |bytes|
      && |bytes[at..]| == Align4(GetSize(layout, last))
      && bytes[at..][..|Encode(layout, last)|] == Encode(layout, last)
      && Packed(layout, bytes[..at], records[..|records| - 1])
  {
    hide Encode;
    hide ValidRecord;
    var last, at := records[|records| - 1], LastAt(layout, bytes, records);
    assert bytes[at..][..|Encode(layout, last)|] == bytes[at..at + |Encode(layout, last)|];
  }

  /** Records packed after others are decoded after them. */
  lemma {:induction false} DecodeConcat(layout: Layout, bytes: seq<Byte>, more: seq<Byte>, records: seq<Record>, rest: seq<Record>)
    requires Packed(layout, bytes, records) && layout.names > 0
    requires DecodeAll(layout, more) == Some(rest)
    ensures DecodeAll(layout, bytes + more) == Some(records + rest)
    decreases |records|
  {
    hide DecodeAll;
    hide Encode;
    hide ValidRecord;
    if records == [] {
      assert bytes + more == more && records + rest == rest;
    } else {
      PackedLast(layout, bytes, records);
      hide Packed;
      hide LastAt;
      hide GetSize;
      hide Align4;
      var last, at := records[|records| - 1], LastAt(layout, bytes, records);
      DecodeStep(layout, last, bytes[at..], more, rest);
      DecodeConcat(layout, bytes[..at], bytes[at..] + more, records[..|records| - 1], [last] + rest);
      Associate(bytes[..at], bytes[at..], more);
      Associate(records[..|records| - 1], [last], rest);
      assert bytes[..at] + bytes[at..] == bytes && records[..|records| - 1] + [last] == records;
    }
  }

  /** Round trip: the client reads back exactly the records packed. */
  lemma DecodePacked(layout: Layout, bytes: seq<Byte>, records: seq<Record>)
    requires Packed(layout, bytes, records) && layout.names > 0
    ensures DecodeAll(layout, bytes) == Some(records)
  {
    DecodeConcat(layout, bytes, [], records, []);
    assert bytes + [] == bytes && records + [] == records;
  }

  /** The sizes of a listing's entries as they report them: the declared size, without its one character and with
      all the characters of the names. */
  function DeclaredTotal(id: ListId, records: seq<Record>): nat
    decreases |records|
  {
    if records == [] then 0
    else DeclaredTotal(id, records[..|records| - 1]) +
         Align4(DeclaredSize(id) - 2 + 2 * Characters(records[|records| - 1].names))
  }

  lemma {:induction false} TotalIsDeclared(id: ListId, records: seq<Record>)
    ensures DeclaredTotal(id, records) == TotalSize(LayoutOf(id), records)
    decreases |records|
  {
    hide Characters;
    if records == [] {
    } else {
      TotalIsDeclared(id, records[..|records| - 1]);
    }
  }

  /** Each of the five listings is read back entry by entry, from as many bytes as its entries report. */
  lemma ListingIsReadBack(id: ListId, bytes: seq<Byte>, records: seq<Record>)
    requires Packed(LayoutOf(id), bytes, records)
    ensures DecodeAll(LayoutOf(id), bytes) == Some(records)
    ensures |bytes| == DeclaredTotal(id, records)
  {
    hide DecodeAll;
    hide Packed;
    DecodePacked(LayoutOf(id), bytes, records);
    PackedSize(LayoutOf(id), bytes, records);
    TotalIsDeclared(id, records);
  }

  // ---------------------------------------------------------------- the longest prefix that fits

  /** The number of leading records that fit. */
  function Fitting(layout: Layout, records: seq<Record>, max: nat): (n: nat)
    ensures n <= |records|
    decreases |records|
  {
    if records == [] || TotalSize(layout, records) <= max then |records|
    else Fitting(layout, records[..|records| - 1], max)
  }

  /** Its size fits, and one record more would not. */
  lemma {:induction false} FittingIsLongest(layout: Layout, records: seq<Record>, max: nat)
    ensures var n := Fitting(layout, records, max);
      && TotalSize(layout, records[..n]) <= max
      && (n < |records| ==> TotalSize(layout, records[..n + 1]) > max)
      && (forall k :: n < k <= |records| ==> TotalSize(layout, records[..k]) > max)
      && (n == |records| <==> TotalSize(layout, records) <= max)
    decreases |records|
  {
    var n := Fitting(layout, records, max);
    if records != [] && TotalSize(layout, records) > max {
      var front := records[..|records| - 1];
      FittingIsLongest(layout, front, max);
      forall k | n < k <= |records| ensures TotalSize(layout, records[..k]) > max {
        if k <= |front| {
          assert records[..k] == front[..k];
        } else {
          assert records[..k] == records;
        }
      }
      assert records[..n] == front[..n];
    } else {
      assert records[..n] == records;
    }
  }

  // ---------------------------------------------------------------- the writer

  class ListBuffer {
    const data: array<Byte>
    var length: nat
    var dataSize: nat

    ghost predicate Valid()
      reads this
    {
      length <= data.Length && length <= dataSize && (dataSize <= data.Length ==> length == dataSize)
    }

    constructor (maxLength: nat)
      ensures Valid() && fresh(data) && data.Length == maxLength
      ensures length == 0 && dataSize == 0
    {
      data := new Byte[maxLength](_ => 0);
      length, dataSize := 0, 0;
    }

    method Put(at: nat, bytes: seq<Byte>)
      requires at + |bytes| <= data.Length
      modifies data
      ensures data[..at] == old(data[..at])
      ensures data[at..at + |bytes|] == bytes
      ensures data[at + |bytes|..] == old(data[at + |bytes|..])
    {
      var i := 0;
      while i < |bytes|
        invariant 0 <= i <= |bytes|
        invariant data[..at] == old(data[..at])
        invariant data[at..at + i] == bytes[..i]
        invariant data[at + |bytes|..] == old(data[at + |bytes|..])
      {
        data[at + i] := bytes[i];
        i := i + 1;
      }
    }

    /** Copies a name, each character widened to two bytes. */
    method PutName(at: nat, name: seq<Char>)
      requires at + 2 * |name| <= data.Length
      modifies data
      ensures data[..at] == old(data[..at])
      ensures data[at..at + 2 * |name|] == WideName(name)
      ensures data[at + 2 * |name|..] == old(data[at + 2 * |name|..])
    {
      var i := 0;
      while i < |name|
        invariant 0 <= i <= |name|
        invariant data[..at] == old(data[..at])
        invariant data[at..at + 2 * i] == WideName(name[..i])
        invariant data[at + 2 * |name|..] == old(data[at + 2 * |name|..])
      {
        ghost var before := data[at..at + 2 * i];
        data[at + 2 * i] := name[i] % 0x100;
        data[at + 2 * i + 1] := name[i] / 0x100;
        assert data[at..at + 2 * (i + 1)] == before + Wide(name[i]);
        assert name[..i + 1][..i] == name[..i];
        i := i + 1;
      }
      assert name[..i] == name;
    }

    method PutNames(at: nat, names: seq<seq<Char>>)
      requires at + 2 * Characters(names) <= data.Length
      modifies data
      ensures data[..at] == old(data[..at])
      ensures data[at..at + 2 * Characters(names)] == Texts(names)
    {
      hide WideName;
      var i, end := 0, at;
      NoTexts(names);
      hide Texts;
      hide Characters;
      TextsSplit(names, 0);
      while i < |names|
        invariant 0 <= i <= |names|
        invariant end == at + 2 * Characters(names[..i]) <= data.Length
        invariant data[..at] == old(data[..at])
        invariant data[at..end] == Texts(names[..i])
      {
        TextsSplit(names, i + 1);
        TextsNext(names, i);
        ghost var written := data[..end];
        PutName(end, names[i]);
        assert data[..end] == written;
        assert data[..at] == written[..at];
        assert data[at..end] == written[at..];
        assert data[at..end + 2 * |names[i]|] == data[at..end] + data[end..end + 2 * |names[i]|];
        end := end + 2 * |names[i]|;
        i := i + 1;
      }
      assert names[..i] == names;
    }

    method WriteRecord(layout: Layout, record: Record, at: nat)
      requires ValidRecord(layout, record) && at + |Encode(layout, record)| <= data.Length
      modifies data
      ensures data[..at] == old(data[..at])
      ensures data[at..at + |Encode(layout, record)|] == Encode(layout, record)
    {
      var header := record.fields + Lengths(record.names);
      var nameAt := at + |header|;
      hide Lengths;
      hide Texts;
      Put(at, header);
      ghost var front := data[..nameAt];
      FrontOfArray(data, at, nameAt);
      PutNames(nameAt, record.names);
      FrontOfArray(data, at, nameAt);
      JoinedSlices(data, at, nameAt, nameAt + 2 * Characters(record.names));
      hide Characters;
    }

    /** Counts the record, and writes it if the buffer can still hold everything counted. */
    method AppendRecord(layout: Layout, record: Record)
      requires Valid() && dataSize % 4 == 0 && ValidRecord(layout, record)
      modifies `length, `dataSize, data
      ensures Valid() && dataSize == old(dataSize) + Align4(GetSize(layout, record))
      ensures dataSize > data.Length ==> length == old(length) && data[..] == old(data[..]) && data[..length] == old(data[..length])
      ensures dataSize <= data.Length ==>
        && old(length) + |Encode(layout, record)| <= length == dataSize
        && data[..length] == old(data[..length]) + data[old(length)..length]
        && data[old(length)..old(length) + |Encode(layout, record)|] == Encode(layout, record)
    {
      hide Encode;
      hide GetSize;
      hide ValidRecord;
      AlignSum(dataSize, GetSize(layout, record));
      hide Align4;
      dataSize := Align4(dataSize + GetSize(layout, record));
      if dataSize > data.Length {
        return;
      }
      WriteRecord(layout, record, length);
      assert data[..dataSize] == data[..length] + data[length..dataSize];
      length := dataSize;
    }

    /** The first i records have been counted, and the longest run of leading ones that fits is held. */
    ghost predicate Listed(layout: Layout, records: seq<Record>, i: nat)
      requires i <= |records|
      reads this, data
    {
      && Valid()
      && dataSize % 4 == 0 && dataSize == TotalSize(layout, records[..i])
      && Packed(layout, data[..length], records[..Fitting(layout, records[..i], data.Length)])
    }

    method ListOne(layout: Layout, records: seq<Record>, i: nat)
      requires i < |records| && Listed(layout, records, i) && ValidRecord(layout, records[i])
      modifies `length, `dataSize, data
      ensures Listed(layout, records, i + 1)
    {
      hide Packed;
      hide TotalSize;
      hide Fitting;
      hide Encode;
      hide GetSize;
      hide ValidRecord;
      ghost var before, at := data[..length], length;
      AppendRecord(layout, records[i]);
      FittingNext(layout, records, i, data.Length);
      if dataSize <= data.Length {
        ghost var more := data[at..length];
        SliceOfArray(data, at, length, |Encode(layout, records[i])|);
        assert records[..i + 1] == records[..i] + [records[i]];
        PackedAppend(layout, before, more, records[..i], records[i]);
      } else {
        assert data[..length] == before;
      }
    }

    /** Lists the records: counts all of them, and holds the longest run of leading ones that fits. The
        three ways the listings test for overflow agree. */
    method List(layout: Layout, records: seq<Record>) returns (err: Error)
      requires Valid() && length == 0 && dataSize == 0 && layout.names > 0
      requires forall i :: 0 <= i < |records| ==> ValidRecord(layout, records[i])
      modifies `length, `dataSize, data
      ensures Valid() && dataSize == TotalSize(layout, records)
      ensures DecodeAll(layout, data[..length]) == Some(records[..Fitting(layout, records, data.Length)])
      ensures err == if dataSize <= data.Length then ErrNone else ErrTooBig
      ensures dataSize > length <==> dataSize > data.Length
      ensures dataSize == length <==> dataSize <= data.Length
    {
      hide DecodeAll;
      hide Packed;
      hide TotalSize;
      hide Fitting;
      hide ValidRecord;
      NothingPacked(layout, records, data.Length);
      assert data[..0] == [] && records[..0] == [];
      var i := 0;
      while i < |records|
        invariant 0 <= i <= |records| && Listed(layout, records, i)
      {
        ListOne(layout, records, i);
        i := i + 1;
      }
      assert records[..i] == records;
      DecodePacked(layout, data[..length], records[..Fitting(layout, records, data.Length)]);
      err := if dataSize > length then ErrTooBig else ErrNone;
    }
  }

  lemma FrontOfArray(a: array<Byte>, at: nat, end: nat)
    requires at <= end <= a.Length
    ensures a[..end][..at] == a[..at] && a[..end][at..] == a[at..end]
  {
  }

  lemma JoinedSlices(a: array<Byte>, at: nat, mid: nat, end: nat)
    requires at <= mid <= end <= a.Length
    ensures a[at..end] == a[at..mid] + a[mid..end]
  {
  }

  lemma SliceOfArray(a: array<Byte>, at: nat, end: nat, n: nat)
    requires at + n <= end <= a.Length
    ensures a[at..end][..n] == a[at..at + n] && a[..end] == a[..at] + a[at..end]
  {
  }

  lemma AlignSum(aligned: nat, size: nat)
    requires aligned % 4 == 0
    ensures Align4(aligned + size) == aligned + Align4(size)
  {
  }

  lemma NoTexts(names: seq<seq<Char>>)
    ensures Texts(names[..0]) == [] && Characters(names[..0]) == 0
  {
  }

  lemma {:induction false} TextsSplit(names: seq<seq<Char>>, i: nat)
    ensures i <= |names| ==> Characters(names[..i]) <= Characters(names)
    decreases |names|
  {
    if i <= |names| {
      if i == 0 {
      } else {
        TextsSplit(names[1..], i - 1);
        assert names[..i][1..] == names[1..][..i - 1];
      }
    }
  }

  lemma {:induction false} TextsNext(names: seq<seq<Char>>, i: nat)
    ensures i < |names| ==> Texts(names[..i + 1]) == Texts(names[..i]) + WideName(names[i])
    ensures i < |names| ==> Characters(names[..i + 1]) == Characters(names[..i]) + |names[i]|
    decreases |names|
  {
    if i < |names| {
      if i == 0 {
      } else {
        TextsNext(names[1..], i - 1);
        assert names[..i + 1][1..] == names[1..][..i];
        assert names[..i][1..] == names[1..][..i - 1];
      }
    }
  }

  lemma NothingPacked(layout: Layout, records: seq<Record>, max: nat)
    ensures TotalSize(layout, records[..0]) == 0 && Fitting(layout, records[..0], max) == 0
    ensures Packed(layout, [], [])
  {
  }

  lemma FittingNext(layout: Layout, records: seq<Record>, i: nat, max: nat)
    requires i < |records|
    ensures TotalSize(layout, records[..i + 1]) == TotalSize(layout, records[..i]) + Align4(GetSize(layout, records[i]))
    ensures Fitting(layout, records[..i + 1], max) ==
      if TotalSize(layout, records[..i + 1]) <= max then i + 1 else Fitting(layout, records[..i], max)
    ensures TotalSize(layout, records[..i]) <= max ==> Fitting(layout, records[..i], max) == i
  {
    assert records[..i + 1][..i] == records[..i];
  }

  /** A retry with a buffer of the reported size, or any larger one, returns every record. */
  lemma RetryReturnsAll(layout: Layout, records: seq<Record>, max: nat)
    ensures Fitting(layout, records, max) == |records| <==> TotalSize(layout, records) <= max
  {
    FittingIsLongest(layout, records, max);
  }
}
