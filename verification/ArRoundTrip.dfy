/** What both `ar` readers recover of what `write_ar` wrote, and how they agree. */
module ArRoundTrip {
  import opened Options
  import opened Text
  import opened Ar

  // ------------------------------------------------------------------ where the columns of a header are

  predicate Ascii(s: string) { forall i :: 0 <= i < |s| ==> s[i] < '\U{80}' }

  ghost predicate KeepsAscii(utf8: char -> Bytes) {
    forall c :: c < '\U{80}' ==> utf8(c) == [c]
  }

  lemma {:induction false} EncodeAscii(utf8: char -> Bytes, s: string)
    requires KeepsAscii(utf8) && Ascii(s)
    ensures Encode(utf8, s) == s
  {
    if s != "" {
      EncodeAscii(utf8, s[1..]);
      assert s == [s[0]] + s[1..];
    }
  }

  lemma AsciiJoin(a: string, b: string)
    requires Ascii(a) && Ascii(b)
    ensures Ascii(a + b)
  {
  }

  lemma CutMiddle(a: Bytes, b: Bytes, c: Bytes)
    ensures Cut(a + b + c, |a|, |b|) == b && Drop(a + b, |a|) == b
  {
    assert (a + b + c)[|a|..] == b + c;
    assert (b + c)[..|b|] == b;
  }

  lemma Powers()
    ensures Pow10(12) > EPOCH && Pow10(10) > Pow10(9)
  {
    assert Pow10(3) == 1000;
    assert Pow10(6) == 1000 * Pow10(3);
    assert Pow10(9) == 1000 * Pow10(6);
    assert Pow10(10) == 10 * Pow10(9);
    assert Pow10(12) == 100 * Pow10(10);
  }

  lemma PadLength(s: string, width: nat)
    ensures |Pad(s, width)| == (if |s| < width then width else |s|) && s <= Pad(s, width)
    ensures forall i :: |s| <= i < |Pad(s, width)| ==> Pad(s, width)[i] == ' '
  {
  }

  lemma PadFits(s: string, width: nat)
    requires Ascii(s) && |s| <= width
    ensures |Pad(s, width)| == width && Ascii(Pad(s, width))
  {
    PadLength(s, width);
  }

  lemma MiddleLength()
    ensures |Middle()| == 32 && Ascii(Middle())
  {
    Powers();
    DecimalWidth(EPOCH, 12);
    var a, b, c := Decimal(EPOCH), "0", "100644";
    hide Decimal, Pow10;
    PadFits(a, 12);
    PadFits(b, 6);
    PadFits(c, 8);
    hide Pad;
    AsciiJoin(Pad(a, 12), Pad(b, 6));
    AsciiJoin(Pad(a, 12) + Pad(b, 6), Pad(b, 6));
    AsciiJoin(Pad(a, 12) + Pad(b, 6) + Pad(b, 6), Pad(c, 8));
  }

  ghost predicate Named(m: Member) {
    |m.name| <= 16 && Ascii(m.name)
  }

  /** The size fits its ten columns. */
  ghost predicate Fits(m: Member) {
    |m.blob| < Pow10(10)
  }

  lemma HeaderIs(utf8: char -> Bytes, m: Member)
    requires KeepsAscii(utf8) && Named(m)
    ensures Encode(utf8, Header(m)) == Pad(m.name, 16) + Middle() + Pad(Decimal(|m.blob|), 10)
    ensures |Pad(m.name, 16)| == 16 && |Middle()| == 32
    ensures if Fits(m) then |Pad(Decimal(|m.blob|), 10)| == 10 else |Decimal(|m.blob|)| > 10 && Pad(Decimal(|m.blob|), 10) == Decimal(|m.blob|)
  {
    var a, c, n := m.name, Decimal(|m.blob|), |m.blob|;
    MiddleLength();
    PadLength(a, 16);
    PadLength(c, 10);
    DecimalWidth(n, 10);
    hide Decimal, Middle, Pow10;
    assert Ascii(Pad(a, 16)) && Ascii(Pad(c, 10));
    AsciiJoin(Pad(a, 16), Middle());
    AsciiJoin(Pad(a, 16) + Middle(), Pad(c, 10));
    EncodeAscii(utf8, Header(m));
    if !Fits(m) { assert Pad(c, 10) == c + ""; }
  }

  function Fill(m: Member): Bytes { if |m.blob| % 2 == 1 then "\n" else "" }

  lemma ColumnsFit(a: Bytes, b: Bytes, c: Bytes, magic: Bytes, d: Bytes, f: Bytes, rest: Bytes)
    requires |a| == 16 && |b| == 32 && |c| == 10 && |magic| == 2
    ensures var e := (a + b + c) + magic + d + f + rest;
      |e| >= 60 && Cut(e, 0, 16) == a && Cut(e, 48, 10) == c && Cut(e, 58, 2) == magic && Cut(e, 60, |d|) == d && Drop(e, 60 + |d| + |f|) == rest
  {
    var e := (a + b + c) + magic + d + f + rest;
    hide Cut, Drop;
    var tail := magic + d + f + rest;
    assert e == "" + a + (b + c + tail) by { assert (a + b + c) + tail == e; }
    CutMiddle("", a, b + c + tail);
    assert e == (a + b) + c + tail;
    CutMiddle(a + b, c, tail);
    var h := a + b + c;
    assert e == h + magic + (d + f + rest);
    CutMiddle(h, magic, d + f + rest);
    assert e == (h + magic) + d + (f + rest);
    CutMiddle(h + magic, d, f + rest);
    CutMiddle(h + magic + d + f, rest, "");
  }

  lemma ColumnsWide(a: Bytes, b: Bytes, c: Bytes, tail: Bytes)
    requires |a| == 16 && |b| == 32 && |c| > 10
    ensures var e := (a + b + c) + tail;
      |e| >= 59 && Cut(e, 0, 16) == a && Cut(e, 48, 10) == c[..10] && e[58] == c[10]
  {
    var e := (a + b + c) + tail;
    hide Cut;
    assert e == "" + a + (b + c + tail);
    CutMiddle("", a, b + c + tail);
    assert e == (a + b) + c[..10] + (c[10..] + tail);
    CutMiddle(a + b, c[..10], c[10..] + tail);
    assert (a + b + c)[58] == c[10];
  }

  // ------------------------------------------------------------------ one member

  lemma EntryFits(utf8: char -> Bytes, m: Member, rest: Bytes)
    requires KeepsAscii(utf8) && Named(m) && Fits(m)
    ensures var e, n := Entry(utf8, m) + rest, |m.blob|;
      && |e| >= 60 && Cut(e, 0, 16) == Pad(m.name, 16) && Cut(e, 48, 10) == Pad(Decimal(n), 10) && Cut(e, 58, 2) == MAGIC
      && Cut(e, 60, n) == m.blob && Drop(e, 60 + n + n % 2) == rest
  {
    HeaderIs(utf8, m);
    hide Encode, Header, Cut, Drop, Pad, Middle, Decimal;
    assert Entry(utf8, m) + rest == (Pad(m.name, 16) + Middle() + Pad(Decimal(|m.blob|), 10)) + MAGIC + m.blob + Fill(m) + rest;
    ColumnsFit(Pad(m.name, 16), Middle(), Pad(Decimal(|m.blob|), 10), MAGIC, m.blob, Fill(m), rest);
  }

  lemma {:induction false} SpacesAre(n: nat)
    ensures |Spaces(n)| == n && forall i :: 0 <= i < n ==> Spaces(n)[i] == ' '
  {
    if n > 0 { SpacesAre(n - 1); }
  }

  lemma MiddleColumns()
    ensures |Pad(Decimal(EPOCH), 12)| == 12 && Middle() == Pad(Decimal(EPOCH), 12) + ("0     " + ("0     " + "100644  "))
  {
    Powers();
    DecimalWidth(EPOCH, 12);
    PadLength(Decimal(EPOCH), 12);
    hide Decimal, Pow10;
    PadLength("0", 6);
    PadLength("100644", 8);
    assert Pad("0", 6) == "0     " && Pad("100644", 8) == "100644  ";
    hide Pad;
  }

  lemma CutParts(e: Bytes, at: nat, x: Bytes, y: Bytes)
    requires at + |x| + |y| <= |e| && Cut(e, at, |x| + |y|) == x + y
    ensures Cut(e, at, |x|) == x && Cut(e, at + |x|, |y|) == y
  {
    assert Cut(e, at, |x| + |y|)[..|x|] == Cut(e, at, |x|);
    assert Cut(e, at, |x| + |y|)[|x|..] == Cut(e, at + |x|, |y|);
  }

  /** The fields between the name and the size, in any text that holds them there. */
  lemma FieldsAt(e: Bytes, a: Bytes, t: Bytes, tail: Bytes)
    requires |a| == 16 && |t| == 12 && e == a + (t + ("0     " + ("0     " + "100644  "))) + tail
    ensures Cut(e, 16, 12) == t && Cut(e, 28, 6) == "0     " && Cut(e, 34, 6) == "0     " && Cut(e, 40, 8) == "100644  "
  {
    hide Cut, Drop;
    var z, m := "0     ", "100644  ";
    CutMiddle(a, t + (z + (z + m)), tail);
    CutParts(e, 16, t, z + (z + m));
    CutParts(e, 28, z, z + m);
    CutParts(e, 34, z, m);
  }

  /** Time, owner, group and mode are the same in every header. */
  lemma IdentityColumns(utf8: char -> Bytes, m: Member, rest: Bytes)
    requires KeepsAscii(utf8) && Named(m)
    ensures var e := Entry(utf8, m) + rest;
      && |e| >= 60 && Cut(e, 16, 12) == Pad(Decimal(EPOCH), 12)
      && Cut(e, 28, 6) == "0     " && Cut(e, 34, 6) == "0     " && Cut(e, 40, 8) == "100644  "
  {
    var tail := Pad(Decimal(|m.blob|), 10) + (MAGIC + m.blob + Fill(m) + rest);
    HeaderIs(utf8, m);
    HeaderParts(m, MAGIC + m.blob + Fill(m) + rest);
    hide *;
    MiddleColumns();
    MiddleLength();
    EntryShape(utf8, m, rest);
    FieldsAt(Entry(utf8, m) + rest, Pad(m.name, 16), Pad(Decimal(EPOCH), 12), tail);
  }

  lemma HeaderParts(m: Member, more: Bytes)
    ensures Header(m) + more == Pad(m.name, 16) + Middle() + (Pad(Decimal(|m.blob|), 10) + more)
  {
    hide Pad, Middle, Decimal;
  }

  lemma EntryShape(utf8: char -> Bytes, m: Member, rest: Bytes)
    ensures Entry(utf8, m) + rest == Encode(utf8, Header(m)) + (MAGIC + m.blob + Fill(m) + rest)
  {
    hide Encode, Header;
  }

  lemma CutStart(e: Bytes, a: nat, n: nat)
    requires a + n <= |e| && n > 0
    ensures |Cut(e, a, n)| == n && Cut(e, a, n)[0] == e[a]
  {
  }

  lemma EntryWide(utf8: char -> Bytes, m: Member, rest: Bytes)
    requires KeepsAscii(utf8) && Named(m) && !Fits(m)
    ensures var e := Entry(utf8, m) + rest;
      |e| >= 60 && |Cut(e, 48, 10)| == 10 && Cut(e, 58, 2) != MAGIC
  {
    var c := Decimal(|m.blob|);
    var tail := MAGIC + m.blob + Fill(m) + rest;
    var e := Entry(utf8, m) + rest;
    assert |tail| >= 2;
    HeaderIs(utf8, m);
    assert IsDigit(c[10]) && !IsDigit(MAGIC[0]);
    hide *;
    EntryShape(utf8, m, rest);
    ColumnsWide(Pad(m.name, 16), Middle(), c, tail);
    CutStart(e, 48, 10);
    CutStart(e, 58, 2);
  }

  // ------------------------------------------------------------------ the size and the name that come back

  /** A notion of space that covers the ASCII one and leaves signs and digits alone. */
  ghost predicate Spacing(space: Space) {
    && (forall c :: AsciiSpace(c) ==> space(c))
    && (forall c :: IsDigit(c) || c == '-' || c == '+' ==> !space(c))
  }

  lemma PadSpaces(space: Space, s: string, width: nat) returns (pad: string)
    requires space(' ')
    ensures Pad(s, width) == s + pad && AllSpace(space, pad)
  {
    pad := Spaces(if |s| < width then width - |s| else 0);
  }

  lemma SizeFieldPadded(space: Space, digits: string, pad: string)
    requires AllSpace(space, pad) && digits != "" && !space(digits[0]) && !space(digits[|digits| - 1])
    ensures SizeField(space, digits + pad) == Int(space, digits)
  {
    hide Int;
    assert "" + digits + pad == digits + pad;
    StripPadded(space, "", digits, pad);
  }

  lemma AsciiDigitsShow(space: Space)
    requires Spacing(space)
    ensures DigitsShow(space) && DigitsShow(AsciiSpace) && space(' ') && AsciiSpace(' ')
  {
    assert AsciiSpace(' ');
  }

  lemma SizeBack(space: Space, n: nat)
    requires Spacing(space)
    ensures SizeField(space, Pad(Decimal(n), 10)) == Some(n)
    ensures Int(AsciiSpace, Pad(Decimal(n), 10)) == Some(n)
  {
    AsciiDigitsShow(space);
    var s := Decimal(n);
    assert IsDigit(s[0]) && IsDigit(s[|s| - 1]);
    var pad := PadSpaces(AsciiSpace, s, 10);
    assert AllSpace(space, pad);
    assert "" + s + pad == s + pad && "" + s + "" == s;
    assert !space(s[0]) && !space(s[|s| - 1]);
    hide *;
    SizeFieldPadded(space, s, pad);
    NoPad(space);
    IntDecimal(space, "", n, "");
    IntDecimal(AsciiSpace, "", n, pad);
  }

  lemma NoPad(space: Space)
    ensures AllSpace(space, "") && AllSpace(AsciiSpace, "")
  {
  }

  lemma SizeSmall(space: Space, field: Bytes)
    requires |field| == 10 && SizeField(space, field).Some?
    ensures SizeField(space, field).value < Pow10(10)
  {
    var t := Strip(space, field);
    if t != "" { IntBound(space, t, 10); }
  }

  /** A name comes back from the lenient reader exactly when it does not end in space. */
  lemma NameBack(space: Space, name: string)
    requires space(' ')
    ensures StripRight(space, Pad(name, 16)) == StripRight(space, name)
    ensures StripRight(space, name) == name <==> (name == "" || !space(name[|name| - 1]))
  {
    var pad := PadSpaces(space, name, 16);
    StripRightMore(space, name, pad);
    if name != "" && space(name[|name| - 1]) { assert |StripRight(space, name)| < |name|; }
  }

  lemma SlashesShorter(s: string)
    ensures |StripSlashes(s)| <= |s| && (StripSlashes(s) == s <==> (s == "" || s[|s| - 1] != '/'))
  {
  }

  ghost predicate Clean(space: Space, name: string) {
    name == "" || (!space(name[0]) && !space(name[|name| - 1]) && name[|name| - 1] != '/')
  }

  /** And from the strict reader when, besides, it neither starts with space nor ends in a slash. */
  lemma CleanNameBack(space: Space, name: string)
    requires space(' ')
    ensures Strip(space, Pad(name, 16)) == Strip(space, name)
    ensures StripSlashes(Strip(space, name)) == name <==> Clean(space, name)
  {
    var pad := PadSpaces(space, name, 16);
    StripMore(space, name, pad);
    SlashesShorter(Strip(space, name));
    if name != "" && space(name[0]) { assert |StripLeft(space, name)| < |name|; }
    if name != "" && space(name[|name| - 1]) {
      var t := StripLeft(space, name);
      if t == name { assert |StripRight(space, t)| < |t|; }
    }
  }

  // ------------------------------------------------------------------ the lenient reader reads back

  function RowOf(m: Member): Row { Row(m.name, |m.blob|, m.blob) }

  function RowsOf(members: seq<Member>): seq<Row> {
    if members == [] then [] else [RowOf(members[0])] + RowsOf(members[1..])
  }

  lemma RowsStep(space: Space, utf8: char -> Bytes, m: Member, rest: Bytes)
    requires Spacing(space) && KeepsAscii(utf8) && Named(m) && Fits(m)
    ensures RowsFrom(space, Entry(utf8, m) + rest) == OnRow(Row(StripRight(space, m.name), |m.blob|, m.blob), RowsFrom(space, rest))
  {
    hide *;
    AsciiDigitsShow(space);
    EntryFits(utf8, m, rest);
    SizeBack(space, |m.blob|);
    NameBack(space, m.name);
    RowsOnce(space, Entry(utf8, m) + rest);
  }

  lemma RowsWide(space: Space, utf8: char -> Bytes, m: Member, rest: Bytes)
    requires Spacing(space) && KeepsAscii(utf8) && Named(m) && !Fits(m)
    ensures var r := RowsFrom(space, Entry(utf8, m) + rest); r.Rows? ==> r.rows != [] && r.rows[0].payload != m.blob
  {
    var e := Entry(utf8, m) + rest;
    EntryWide(utf8, m, rest);
    hide Entry, RowsFrom, SizeField, Drop, StripRight, Pow10, Spacing, KeepsAscii, Named;
    RowsOnce(space, e);
    if SizeField(space, Cut(e, 48, 10)).Some? { SizeSmall(space, Cut(e, 48, 10)); }
  }

  ghost predicate LenientKeeps(space: Space, m: Member) {
    Fits(m) && (m.name == "" || !space(m.name[|m.name| - 1]))
  }

  /** The first member comes back, and then the others, exactly when it is one that is kept. */
  lemma RowsHead(space: Space, utf8: char -> Bytes, m: Member, rest: Bytes, others: seq<Row>)
    requires Spacing(space) && KeepsAscii(utf8) && Named(m)
    ensures RowsFrom(space, Entry(utf8, m) + rest) == Rows([RowOf(m)] + others) <==> (LenientKeeps(space, m) && RowsFrom(space, rest) == Rows(others))
  {
    AsciiDigitsShow(space);
    NameBack(space, m.name);
    hide Entry, RowsFrom, Spacing, KeepsAscii, Named, Fits, StripRight, Pad, OnRow, DigitsShow;
    if Fits(m) {
      RowsStep(space, utf8, m, rest);
      SplitRows(Row(StripRight(space, m.name), |m.blob|, m.blob), RowsFrom(space, rest), RowOf(m), others);
    } else {
      RowsWide(space, utf8, m, rest);
    }
  }

  lemma EntriesSplit(utf8: char -> Bytes, members: seq<Member>)
    requires members != []
    ensures Entries(utf8, members) == Entry(utf8, members[0]) + Entries(utf8, members[1..])
    ensures RowsOf(members) == [RowOf(members[0])] + RowsOf(members[1..])
    ensures forall m :: m in members <==> m == members[0] || m in members[1..]
  {
    assert members == [members[0]] + members[1..];
  }

  lemma {:induction false} RowsBack(space: Space, utf8: char -> Bytes, members: seq<Member>)
    requires Spacing(space) && KeepsAscii(utf8) && forall m :: m in members ==> Named(m)
    ensures RowsFrom(space, Entries(utf8, members)) == Rows(RowsOf(members)) <==> forall m :: m in members ==> LenientKeeps(space, m)
    decreases |members|
  {
    if members != [] {
      hide *;
      EntriesSplit(utf8, members);
      RowsBack(space, utf8, members[1..]);
      RowsHead(space, utf8, members[0], Entries(utf8, members[1..]), RowsOf(members[1..]));
    }
  }

  lemma SplitRows(row: Row, more: Listing, first: Row, others: seq<Row>)
    ensures OnRow(row, more) == Rows([first] + others) <==> row == first && more == Rows(others)
  {
    if OnRow(row, more) == Rows([first] + others) {
      assert ([row] + more.rows)[1..] == more.rows && ([first] + others)[1..] == others;
      assert ([row] + more.rows)[0] == row && ([first] + others)[0] == first;
    }
  }

  lemma StartsGlobal(rest: Bytes)
    ensures First(GLOBAL + rest, 8) == GLOBAL && Drop(GLOBAL + rest, 8) == rest
  {
    assert (GLOBAL + rest)[..8] == GLOBAL;
  }

  /** The lenient reader gives back names, sizes and payloads exactly when no name ends in space and each size fits. */
  lemma LenientRoundTrip(space: Space, utf8: char -> Bytes, members: seq<Member>)
    requires Spacing(space) && KeepsAscii(utf8) && forall m :: m in members ==> Named(m)
    ensures ReadRows(space, GLOBAL + Entries(utf8, members)) == Rows(RowsOf(members)) <==> forall m :: m in members ==> LenientKeeps(space, m)
  {
    hide Entries, RowsOf, RowsFrom, LenientKeeps;
    StartsGlobal(Entries(utf8, members));
    RowsBack(space, utf8, members);
  }

  // ------------------------------------------------------------------ the strict reader reads back

  /** The reader decodes ASCII as itself. */
  ghost predicate Reader(c: Coding) {
    Spacing(c.space) && forall s :: Ascii(s) ==> c.decode(s) == Some(s)
  }

  ghost predicate StrictKeeps(c: Coding, m: Member) {
    Fits(m) && Clean(c.space, m.name)
  }

  lemma DecodesName(c: Coding, m: Member)
    requires Reader(c) && Named(m)
    ensures c.decode(Pad(m.name, 16)) == Some(Pad(m.name, 16))
  {
    PadLength(m.name, 16);
    assert Ascii(Pad(m.name, 16));
  }

  lemma WalkStep(c: Coding, utf8: char -> Bytes, m: Member, rest: Bytes)
    requires Reader(c) && KeepsAscii(utf8) && Named(m) && Fits(m)
    ensures WalkFrom(c, Entry(utf8, m) + rest) == OnMember(Member(StripSlashes(Strip(c.space, m.name)), m.blob), WalkFrom(c, rest))
  {
    assert Spacing(c.space);
    hide *;
    AsciiDigitsShow(c.space);
    EntryFits(utf8, m, rest);
    SizeBack(c.space, |m.blob|);
    DecodesName(c, m);
    CleanNameBack(c.space, m.name);
    WalkOnce(c, Entry(utf8, m) + rest);
  }

  lemma WalkWide(c: Coding, utf8: char -> Bytes, m: Member, rest: Bytes)
    requires KeepsAscii(utf8) && Named(m) && !Fits(m)
    ensures WalkFrom(c, Entry(utf8, m) + rest) == Refused(Malformed)
  {
    hide *;
    EntryWide(utf8, m, rest);
    WalkOnce(c, Entry(utf8, m) + rest);
  }

  lemma SplitMembers(m: Member, more: Walk, first: Member, others: seq<Member>)
    ensures OnMember(m, more) == Members([first] + others) <==> m == first && more == Members(others)
  {
    if OnMember(m, more) == Members([first] + others) {
      assert ([m] + more.members)[1..] == more.members && ([first] + others)[1..] == others;
      assert ([m] + more.members)[0] == m && ([first] + others)[0] == first;
    }
  }

  lemma WalkHead(c: Coding, utf8: char -> Bytes, m: Member, rest: Bytes, others: seq<Member>)
    requires Reader(c) && KeepsAscii(utf8) && Named(m)
    ensures WalkFrom(c, Entry(utf8, m) + rest) == Members([m] + others) <==> (StrictKeeps(c, m) && WalkFrom(c, rest) == Members(others))
  {
    AsciiDigitsShow(c.space);
    CleanNameBack(c.space, m.name);
    hide Entry, WalkFrom, Reader, KeepsAscii, Named, Fits, StripSlashes, Strip, Pad, OnMember, DigitsShow, Clean;
    if Fits(m) {
      WalkStep(c, utf8, m, rest);
      SplitMembers(Member(StripSlashes(Strip(c.space, m.name)), m.blob), WalkFrom(c, rest), m, others);
    } else {
      WalkWide(c, utf8, m, rest);
    }
  }

  lemma {:induction false} WalkBack(c: Coding, utf8: char -> Bytes, members: seq<Member>)
    requires Reader(c) && KeepsAscii(utf8) && forall m :: m in members ==> Named(m)
    ensures WalkFrom(c, Entries(utf8, members)) == Members(members) <==> forall m :: m in members ==> StrictKeeps(c, m)
    decreases |members|
  {
    if members != [] {
      hide *;
      EntriesSplit(utf8, members);
      assert members == [members[0]] + members[1..];
      WalkBack(c, utf8, members[1..]);
      WalkHead(c, utf8, members[0], Entries(utf8, members[1..]), members[1..]);
    }
  }

  /** The strict walk gives back names and payloads exactly when, besides, no name starts with space or ends in a slash. */
  lemma StrictRoundTrip(c: Coding, utf8: char -> Bytes, members: seq<Member>)
    requires Reader(c) && KeepsAscii(utf8) && forall m :: m in members ==> Named(m)
    ensures WalkAll(c, GLOBAL + Entries(utf8, members)) == Members(members) <==> forall m :: m in members ==> StrictKeeps(c, m)
  {
    hide *;
    StartsGlobal(Entries(utf8, members));
    WalkStarts(c, GLOBAL + Entries(utf8, members));
    WalkBack(c, utf8, members);
  }

  /** In particular the data archive of a package is found, with its own payload. */
  lemma DataIsFound(c: Coding, utf8: char -> Bytes, members: seq<Member>, blob: Bytes)
    requires Reader(c) && KeepsAscii(utf8) && forall m :: m in members ==> Named(m) && StrictKeeps(c, m)
    ensures Finds(c, GLOBAL + Entries(utf8, members), blob) <==> OnlyData(members, blob)
  {
    hide WalkAll, Entries, StrictKeeps, Named, Reader, KeepsAscii, OnlyData;
    StrictRoundTrip(c, utf8, members);
  }

  // ------------------------------------------------------------------ the readers agree

  /** The rows have these payloads, in this order. */
  ghost predicate SamePayloads(rows: seq<Row>, members: seq<Member>) {
    |rows| == |members| && forall i :: 0 <= i < |rows| ==> rows[i].payload == members[i].blob
  }

  lemma SizesAgree(space: Space, field: Bytes)
    requires Spacing(space) && Int(AsciiSpace, field).Some?
    ensures SizeField(space, field) == Int(AsciiSpace, field)
  {
    IntWider(AsciiSpace, space, field);
    var t := Strip(space, field);
    assert Strip(space, t) == t by { hide Int; StripTwice(space, field); }
  }

  lemma StripTwice(space: Space, s: string)
    ensures Strip(space, Strip(space, s)) == Strip(space, s)
  {
    var t := Strip(space, s);
    var u := StripLeft(space, s);
    if t != "" { assert t[0] == u[0]; }
  }

  lemma PayloadsStep(row: Row, rows: seq<Row>, m: Member, members: seq<Member>)
    requires SamePayloads(rows, members) && row.payload == m.blob
    ensures SamePayloads([row] + rows, [m] + members)
  {
  }

  lemma ShortEnd(space: Space, rest: Bytes)
    requires |rest| < 60
    ensures RowsFrom(space, rest) == Rows([])
  {
  }

  /** What an accepted walk has read at its front. */
  lemma Accepted(c: Coding, rest: Bytes) returns (n: nat, m: Member, next: Bytes)
    requires rest != "" && WalkFrom(c, rest).Members?
    ensures |rest| >= 60 && Int(AsciiSpace, Cut(rest, 48, 10)) == Some(n)
    ensures m.blob == Cut(rest, 60, n) && next == Drop(rest, 60 + n + n % 2) && |next| < |rest|
    ensures WalkFrom(c, next).Members? && WalkFrom(c, rest).members == [m] + WalkFrom(c, next).members
  {
    hide *;
    WalkOnce(c, rest);
    n := Int(AsciiSpace, Cut(rest, 48, 10)).value;
    m := Member(StripSlashes(Strip(c.space, c.decode(Cut(rest, 0, 16)).value)), Cut(rest, 60, n));
    next := Drop(rest, 60 + n + n % 2);
    MemberAdded(m, WalkFrom(c, next));
  }

  lemma MemberAdded(m: Member, more: Walk)
    ensures OnMember(m, more).Members? ==> more.Members? && OnMember(m, more).members == [m] + more.members
  {
  }

  lemma RowAdded(row: Row, more: Listing)
    requires more.Rows?
    ensures OnRow(row, more) == Rows([row] + more.rows)
  {
  }

  lemma NoPayloads()
    ensures SamePayloads([], [])
  {
  }

  lemma WalkNothing(c: Coding)
    ensures WalkFrom(c, "") == Members([])
  {
  }

  lemma {:induction false} WalkThenRows(space: Space, c: Coding, rest: Bytes)
    requires Spacing(space) && WalkFrom(c, rest).Members?
    ensures RowsFrom(space, rest).Rows? && SamePayloads(RowsFrom(space, rest).rows, WalkFrom(c, rest).members)
    decreases |rest|
  {
    hide *;
    if rest == "" {
      ShortEnd(space, rest);
      WalkNothing(c);
      NoPayloads();
    } else {
      var n, m, next := Accepted(c, rest);
      RowsOnce(space, rest);
      SizesAgree(space, Cut(rest, 48, 10));
      WalkThenRows(space, c, next);
      var row := Row(StripRight(space, Cut(rest, 0, 16)), n, Cut(rest, 60, n));
      RowAdded(row, RowsFrom(space, next));
      PayloadsStep(row, RowsFrom(space, next).rows, m, WalkFrom(c, next).members);
    }
  }

  /** Whatever file the strict walk accepts, the lenient reader lists the same payloads in the same order. */
  lemma StrictThenLenient(space: Space, c: Coding, raw: Bytes)
    requires Spacing(space) && WalkAll(c, raw).Members?
    ensures ReadRows(space, raw).Rows? && SamePayloads(ReadRows(space, raw).rows, WalkAll(c, raw).members)
  {
    hide RowsFrom, WalkFrom, Spacing, SamePayloads;
    WalkThenRows(space, c, Drop(raw, 8));
  }
}
