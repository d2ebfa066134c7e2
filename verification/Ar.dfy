/** The `ar` container: `write_ar` of ci/mkipk.py and the two readers that check what it wrote. */
module Ar {
  import opened Options
  import opened Text

  /** A byte is a character below 256. */
  type Bytes = string

  datatype Member = Member(name: string, blob: Bytes)

  const GLOBAL: Bytes := "!<arch>\n"
  const MAGIC: Bytes := "`\n"
  const EPOCH: nat := 1262304000

  // ------------------------------------------------------------------ writing

  function Spaces(n: nat): (r: string)
    ensures |r| == n && forall i :: 0 <= i < n ==> r[i] == ' '
  {
    if n == 0 then "" else " " + Spaces(n - 1)
  }

  /** `f"{s:<width}"`: a longer text is not cut. */
  function Pad(s: string, width: nat): string {
    s + Spaces(if |s| < width then width - |s| else 0)
  }

  /** `s.encode()`, given the UTF-8 form of each character. */
  function Encode(utf8: char -> Bytes, s: string): Bytes {
    if s == "" then "" else utf8(s[0]) + Encode(utf8, s[1..])
  }

  function Middle(): string {
    Pad(Decimal(EPOCH), 12) + Pad("0", 6) + Pad("0", 6) + Pad("100644", 8)
  }

  function Header(m: Member): string {
    Pad(m.name, 16) + Middle() + Pad(Decimal(|m.blob|), 10)
  }

  /** A member is written with its header, and filled up to an even length. */
  function Entry(utf8: char -> Bytes, m: Member): Bytes {
    Encode(utf8, Header(m)) + MAGIC + m.blob + (if |m.blob| % 2 == 1 then "\n" else "")
  }

  function Entries(utf8: char -> Bytes, members: seq<Member>): Bytes {
    if members == [] then "" else Entry(utf8, members[0]) + Entries(utf8, members[1..])
  }

  lemma EntriesAt(utf8: char -> Bytes, members: seq<Member>, i: nat)
    requires i < |members|
    ensures Entries(utf8, members[i..]) == Entry(utf8, members[i]) + Entries(utf8, members[i + 1..])
  {
    hide Entry;
    assert members[i..][0] == members[i] && members[i..][1..] == members[i + 1..];
  }

  lemma EntryWritten(utf8: char -> Bytes, fh: Bytes, m: Member, rest: Bytes)
    ensures fh + (Entry(utf8, m) + rest) == fh + Encode(utf8, Header(m)) + MAGIC + m.blob + (if |m.blob| % 2 == 1 then "\n" else "") + rest
  {
    hide Encode, Header;
  }

  /** `write_ar`; None where its assertion on the name fails. */
  method WriteAr(utf8: char -> Bytes, members: seq<Member>) returns (file: Option<Bytes>)
    ensures file.None? <==> exists m :: m in members && |m.name| > 16
    ensures file.Some? ==> file.value == GLOBAL + Entries(utf8, members)
  {
    var fh := GLOBAL;
    assert members[0..] == members;
    assert Entries(utf8, members[|members|..]) == "";
    hide *;
    for i := 0 to |members|
      invariant GLOBAL + Entries(utf8, members) == fh + Entries(utf8, members[i..])
      invariant forall j :: 0 <= j < i ==> |members[j].name| <= 16
    {
      var m := members[i];
      if |m.name| > 16 {
        assert m in members;
        return None;
      }
      EntriesAt(utf8, members, i);
      EntryWritten(utf8, fh, m, Entries(utf8, members[i + 1..]));
      fh := fh + Encode(utf8, Header(m)) + MAGIC + m.blob;
      fh := fh + if |m.blob| % 2 == 1 then "\n" else "";
    }
    assert fh + "" == fh;
    file := Some(fh);
  }

  // ------------------------------------------------------------------ the lenient reader

  function Drop(s: Bytes, n: nat): (r: Bytes)
    ensures |r| <= |s| && (n > 0 && s != "" ==> |r| < |s|)
  {
    if n <= |s| then s[n..] else ""
  }

  /** `s[:n]`. */
  function First(s: Bytes, n: nat): (r: Bytes)
    ensures |r| <= n && r <= s
  {
    if n <= |s| then s[..n] else s
  }

  /** `s[a:a + n]`. */
  function Cut(s: Bytes, a: nat, n: nat): Bytes {
    First(Drop(s, a), n)
  }

  datatype Row = Row(name: string, size: nat, payload: Bytes)

  /** How a read ends: the file is refused, `int` raises, a negative size, or all rows. */
  datatype Listing = NotAr | BadSize | Negative | Rows(rows: seq<Row>)

  function SizeField(space: Space, field: Bytes): Option<int> {
    var t := Strip(space, field);
    if t == "" then Some(0) else Int(space, t)
  }

  function OnRow(row: Row, more: Listing): Listing {
    match more case Rows(rows) => Rows([row] + rows) case _ => more
  }

  function RowsFrom(space: Space, rest: Bytes): Listing
    decreases |rest|
  {
    if |rest| < 60 then Rows([])
    else
      match SizeField(space, Cut(rest, 48, 10))
      case None => BadSize
      case Some(n) =>
        if n < 0 then Negative
        else OnRow(Row(StripRight(space, Cut(rest, 0, 16)), n, Cut(rest, 60, n)), RowsFrom(space, Drop(rest, 60 + n + n % 2)))
  }

  function ReadRows(space: Space, blob: Bytes): Listing {
    if First(blob, 8) != GLOBAL then NotAr else RowsFrom(space, Drop(blob, 8))
  }

  /** `ar_members`. The source loops for ever, or reads backwards, on a negative size; this stops there. */
  method ArMembers(space: Space, blob: Bytes) returns (r: Listing)
    ensures r == ReadRows(space, blob)
  {
    hide *;
    RowsStart(space, blob);
    if First(blob, 8) != GLOBAL {
      return NotAr;
    }
    var out: seq<Row> := [];
    var off := 8;
    FirstRow(RowsFrom(space, Drop(blob, 8)));
    while off + 60 <= |blob|
      invariant ReadRows(space, blob) == Before(out, RowsFrom(space, Drop(blob, off)))
      decreases |blob| - off
    {
      RowsUnfold(space, blob, off);
      BeforeEnd(out);
      var name := StripRight(space, Cut(blob, off, 16));
      var size := SizeField(space, Cut(blob, off + 48, 10));
      if size.None? {
        return BadSize;
      }
      if size.value < 0 {
        return Negative;
      }
      var n: nat := size.value;
      var row := Row(name, n, Cut(blob, off + 60, n));
      BeforeSnoc(out, row, RowsFrom(space, Drop(blob, off + 60 + n + n % 2)));
      out := out + [row];
      off := off + 60 + n + n % 2;
    }
    RowsEnd(space, blob, off);
    BeforeEnd(out);
    r := Rows(out);
  }

  function Before(rows: seq<Row>, more: Listing): Listing {
    match more case Rows(rest) => Rows(rows + rest) case _ => more
  }

  lemma FirstRow(l: Listing)
    ensures Before([], l) == l
  {
    if l.Rows? { assert [] + l.rows == l.rows; }
  }

  lemma RowsStart(space: Space, blob: Bytes)
    ensures ReadRows(space, blob) == if First(blob, 8) != GLOBAL then NotAr else RowsFrom(space, Drop(blob, 8))
  {
    hide RowsFrom;
  }

  lemma BeforeEnd(rows: seq<Row>)
    ensures Before(rows, Rows([])) == Rows(rows) && Before(rows, BadSize) == BadSize && Before(rows, Negative) == Negative
  {
    assert rows + [] == rows;
  }

  lemma BeforeSnoc(rows: seq<Row>, row: Row, more: Listing)
    ensures Before(rows, OnRow(row, more)) == Before(rows + [row], more)
  {
    if more.Rows? { assert rows + ([row] + more.rows) == rows + [row] + more.rows; }
  }

  lemma DropDrop(s: Bytes, a: nat, b: nat)
    ensures Drop(Drop(s, a), b) == Drop(s, a + b)
  {
  }

  lemma RowsOnce(space: Space, rest: Bytes)
    requires |rest| >= 60
    ensures var size := SizeField(space, Cut(rest, 48, 10));
      RowsFrom(space, rest) ==
      if size.None? then BadSize
      else if size.value < 0 then Negative
      else OnRow(Row(StripRight(space, Cut(rest, 0, 16)), size.value, Cut(rest, 60, size.value)),
                 RowsFrom(space, Drop(rest, 60 + size.value + size.value % 2)))
  {
    hide SizeField, StripRight, OnRow, Drop, Cut;
  }

  lemma CutDrop(s: Bytes, a: nat, b: nat, n: nat)
    ensures Cut(Drop(s, a), b, n) == Cut(s, a + b, n)
  {
    hide First, Drop;
    DropDrop(s, a, b);
  }

  lemma DropLength(s: Bytes, n: nat)
    ensures |Drop(s, n)| == if n <= |s| then |s| - n else 0
  {
  }

  lemma RowsUnfold(space: Space, blob: Bytes, off: nat)
    requires off + 60 <= |blob|
    ensures var size := SizeField(space, Cut(blob, off + 48, 10));
      RowsFrom(space, Drop(blob, off)) ==
      if size.None? then BadSize
      else if size.value < 0 then Negative
      else OnRow(Row(StripRight(space, Cut(blob, off, 16)), size.value, Cut(blob, off + 60, size.value)),
                 RowsFrom(space, Drop(blob, off + 60 + size.value + size.value % 2)))
  {
    hide *;
    DropLength(blob, off);
    CutDrop(blob, off, 0, 16);
    CutDrop(blob, off, 48, 10);
    RowsOnce(space, Drop(blob, off));
    var size := SizeField(space, Cut(blob, off + 48, 10));
    if size.Some? && size.value >= 0 {
      CutDrop(blob, off, 60, size.value);
      DropDrop(blob, off, 60 + size.value + size.value % 2);
    }
  }

  lemma RowsEnd(space: Space, blob: Bytes, off: nat)
    requires off + 60 > |blob|
    ensures RowsFrom(space, Drop(blob, off)) == Rows([])
  {
  }

  // ------------------------------------------------------------------ the strict reader

  /** The white space that `int` and `strip` know for bytes. */
  predicate AsciiSpace(c: char) { c in " \t\n\r\U{B}\U{C}" }

  datatype Fault = NoArchive | Malformed | NoSize | NoName | Truncated | Twice | Missing

  datatype Walk = Refused(fault: Fault) | Members(members: seq<Member>)

  /** `s.rstrip('/')`. */
  function StripSlashes(s: string): string {
    if s != "" && s[|s| - 1] == '/' then StripSlashes(s[..|s| - 1]) else s
  }

  function OnMember(m: Member, more: Walk): Walk {
    match more case Members(ms) => Members([m] + ms) case _ => more
  }

  /** The text coding of the reader: what `bytes.decode()` gives, None where it raises, and which characters are space. */
  datatype Coding = Coding(decode: Bytes -> Option<string>, space: Space)

  function WalkFrom(c: Coding, rest: Bytes): Walk
    decreases |rest|
  {
    if rest == "" then Members([])
    else if |rest| < 60 || Cut(rest, 58, 2) != MAGIC then Refused(Malformed)
    else
      var size, name := Int(AsciiSpace, Cut(rest, 48, 10)), c.decode(Cut(rest, 0, 16));
      if size.None? then Refused(NoSize)
      else if name.None? then Refused(NoName)
      else
        var n := size.value;
        if n < 0 || |Cut(rest, 60, n)| != n then Refused(Truncated)
        else OnMember(Member(StripSlashes(Strip(c.space, name.value)), Cut(rest, 60, n)), WalkFrom(c, Drop(rest, 60 + n + n % 2)))
  }

  function WalkAll(c: Coding, raw: Bytes): Walk {
    if First(raw, 8) != GLOBAL then Refused(NoArchive) else WalkFrom(c, Drop(raw, 8))
  }

  const DATA: string := "data.tar.gz"

  /** `blob` is the payload of the one member with the name of the data archive. */
  ghost predicate OnlyData(members: seq<Member>, blob: Bytes) {
    exists i :: 0 <= i < |members| && members[i] == Member(DATA, blob) && forall j :: 0 <= j < |members| && members[j].name == DATA ==> j == i
  }

  datatype Found = Fails(fault: Fault) | Data(blob: Bytes)

  lemma WalkOnce(c: Coding, rest: Bytes)
    requires rest != ""
    ensures var size, name := Int(AsciiSpace, Cut(rest, 48, 10)), c.decode(Cut(rest, 0, 16));
      WalkFrom(c, rest) ==
      if |rest| < 60 || Cut(rest, 58, 2) != MAGIC then Refused(Malformed)
      else if size.None? then Refused(NoSize)
      else if name.None? then Refused(NoName)
      else if size.value < 0 || |Cut(rest, 60, size.value)| != size.value then Refused(Truncated)
      else OnMember(Member(StripSlashes(Strip(c.space, name.value)), Cut(rest, 60, size.value)),
                    WalkFrom(c, Drop(rest, 60 + size.value + size.value % 2)))
  {
    hide Int, Cut, Drop, OnMember, StripSlashes, Strip;
  }

  lemma WalkUnfold(c: Coding, raw: Bytes, pos: nat)
    requires pos < |raw|
    ensures var size, name := Int(AsciiSpace, Cut(raw, pos + 48, 10)), c.decode(Cut(raw, pos, 16));
      WalkFrom(c, Drop(raw, pos)) ==
      if pos + 60 > |raw| || Cut(raw, pos + 58, 2) != MAGIC then Refused(Malformed)
      else if size.None? then Refused(NoSize)
      else if name.None? then Refused(NoName)
      else if size.value < 0 || |Cut(raw, pos + 60, size.value)| != size.value then Refused(Truncated)
      else OnMember(Member(StripSlashes(Strip(c.space, name.value)), Cut(raw, pos + 60, size.value)),
                    WalkFrom(c, Drop(raw, pos + 60 + size.value + size.value % 2)))
  {
    hide *;
    DropLength(raw, pos);
    CutDrop(raw, pos, 0, 16);
    CutDrop(raw, pos, 48, 10);
    CutDrop(raw, pos, 58, 2);
    WalkOnce(c, Drop(raw, pos));
    var size := Int(AsciiSpace, Cut(raw, pos + 48, 10));
    if size.Some? && size.value >= 0 {
      CutDrop(raw, pos, 60, size.value);
      DropDrop(raw, pos, 60 + size.value + size.value % 2);
    }
  }

  function After(members: seq<Member>, more: Walk): Walk {
    match more case Members(ms) => Members(members + ms) case _ => more
  }

  lemma AfterSnoc(members: seq<Member>, m: Member, more: Walk)
    ensures After(members, OnMember(m, more)) == After(members + [m], more)
  {
    if more.Members? { assert members + ([m] + more.members) == members + [m] + more.members; }
  }

  lemma AfterEnds(members: seq<Member>, more: Walk)
    ensures After(members, Members([])) == Members(members) && After([], more) == more
    ensures forall f :: After(members, Refused(f)) == Refused(f)
  {
    assert members + [] == members;
    if more.Members? { assert [] + more.members == more.members; }
  }

  lemma WalkEnd(c: Coding, raw: Bytes, pos: nat)
    requires pos >= |raw|
    ensures WalkFrom(c, Drop(raw, pos)) == Members([])
  {
  }

  /** `data` is what the walk has found in `members`. */
  ghost predicate Holds(members: seq<Member>, data: Option<Bytes>) {
    match data
    case None => forall j :: 0 <= j < |members| ==> members[j].name != DATA
    case Some(blob) => OnlyData(members, blob)
  }

  lemma HoldsNext(members: seq<Member>, data: Option<Bytes>, m: Member)
    requires Holds(members, data)
    ensures m.name != DATA ==> Holds(members + [m], data)
    ensures m.name == DATA && data.None? ==> Holds(members + [m], Some(m.blob))
  {
    var all := members + [m];
    if m.name == DATA && data.None? {
      assert all[|members|] == Member(DATA, m.blob);
    } else if m.name != DATA && data.Some? {
      var i :| 0 <= i < |members| && members[i] == Member(DATA, data.value) && forall j :: 0 <= j < |members| && members[j].name == DATA ==> j == i;
      assert all[i] == Member(DATA, data.value);
    }
  }

  lemma HoldsTwice(members: seq<Member>, data: Option<Bytes>, m: Member, more: Walk, blob: Bytes)
    requires Holds(members, data) && data.Some? && m.name == DATA
    requires After(members, OnMember(m, more)).Members?
    ensures !OnlyData(After(members, OnMember(m, more)).members, blob)
  {
    var all := After(members, OnMember(m, more)).members;
    var i :| 0 <= i < |members| && members[i] == Member(DATA, data.value);
    assert all[i] == members[i] && all[|members|] == m;
  }

  lemma HoldsAll(members: seq<Member>, data: Option<Bytes>, blob: Bytes)
    requires Holds(members, data)
    ensures OnlyData(members, blob) <==> data == Some(blob)
  {
    if OnlyData(members, blob) {
      var i :| 0 <= i < |members| && members[i] == Member(DATA, blob);
    }
  }

  ghost predicate Finds(c: Coding, raw: Bytes, blob: Bytes) {
    WalkAll(c, raw).Members? && OnlyData(WalkAll(c, raw).members, blob)
  }

  lemma NeverFound(c: Coding, raw: Bytes)
    requires WalkAll(c, raw).Refused?
    ensures forall b :: !Finds(c, raw, b)
  {
  }

  lemma TwiceFound(c: Coding, raw: Bytes, seen: seq<Member>, data: Option<Bytes>, m: Member, more: Walk)
    requires Holds(seen, data) && data.Some? && m.name == DATA && WalkAll(c, raw) == After(seen, OnMember(m, more))
    ensures forall b :: !Finds(c, raw, b)
  {
    hide WalkAll, OnlyData, Holds, After, OnMember;
    forall b ensures !Finds(c, raw, b) {
      if WalkAll(c, raw).Members? { HoldsTwice(seen, data, m, more, b); }
    }
  }

  lemma FoundIs(c: Coding, raw: Bytes, seen: seq<Member>, data: Option<Bytes>)
    requires Holds(seen, data) && WalkAll(c, raw) == Members(seen)
    ensures forall b :: Finds(c, raw, b) <==> data == Some(b)
  {
    hide WalkAll, OnlyData, Holds;
    forall b ensures Finds(c, raw, b) <==> data == Some(b) { HoldsAll(seen, data, b); }
  }

  lemma WalkStarts(c: Coding, raw: Bytes)
    ensures WalkAll(c, raw) == if First(raw, 8) != GLOBAL then Refused(NoArchive) else WalkFrom(c, Drop(raw, 8))
  {
    hide WalkFrom;
  }

  /** The walk of `check`: the payload of the one data archive, or why the file is refused. */
  method Check(c: Coding, raw: Bytes) returns (r: Found)
    ensures forall blob :: r == Data(blob) <==> Finds(c, raw, blob)
  {
    hide *;
    WalkStarts(c, raw);
    if First(raw, 8) != GLOBAL {
      NeverFound(c, raw);
      return Fails(NoArchive);
    }
    var pos := 8;
    var data: Option<Bytes> := None;
    ghost var seen: seq<Member> := [];
    AfterEnds(seen, WalkFrom(c, Drop(raw, 8)));
    NothingHeld();
    while pos < |raw|
      invariant WalkAll(c, raw) == After(seen, WalkFrom(c, Drop(raw, pos)))
      invariant Holds(seen, data)
      decreases |raw| - pos
    {
      WalkUnfold(c, raw, pos);
      AfterEnds(seen, Members([]));
      var size := Int(AsciiSpace, Cut(raw, pos + 48, 10));
      var text := c.decode(Cut(raw, pos, 16));
      var fault := if pos + 60 > |raw| || Cut(raw, pos + 58, 2) != MAGIC then Some(Malformed)
                   else if size.None? then Some(NoSize)
                   else if text.None? then Some(NoName)
                   else if size.value < 0 || |Cut(raw, pos + 60, size.value)| != size.value then Some(Truncated)
                   else None;
      if fault.Some? {
        NeverFound(c, raw);
        return Fails(fault.value);
      }
      var n: nat := size.value;
      var name, blob := StripSlashes(Strip(c.space, text.value)), Cut(raw, pos + 60, n);
      ghost var m, more := Member(name, blob), WalkFrom(c, Drop(raw, pos + 60 + n + n % 2));
      HoldsNext(seen, data, m);
      AfterSnoc(seen, m, more);
      if name == DATA {
        if data.Some? {
          TwiceFound(c, raw, seen, data, m, more);
          return Fails(Twice);
        }
        data := Some(blob);
      }
      seen := seen + [m];
      pos := pos + 60 + n + n % 2;
    }
    WalkEnd(c, raw, pos);
    AfterEnds(seen, Members([]));
    FoundIs(c, raw, seen, data);
    r := if data.None? then Fails(Missing) else Data(data.value);
  }

  lemma NothingHeld()
    ensures Holds([], None)
  {
  }
}
