/** The few operations of Python's `str` and `int` that the scripts share. */
module Text {
  import opened Options

  // ------------------------------------------------------------------ searching

  function At(t: string, i: nat): Option<char> {
    if i < |t| then Some(t[i]) else None
  }

  predicate Has(t: string, i: nat, pat: string) {
    i + |pat| <= |t| && t[i..i + |pat|] == pat
  }

  /** `text.find(pat, i)`. */
  function Find(t: string, pat: string, i: nat): (r: Option<nat>)
    requires pat != []
    ensures r.Some? ==> i <= r.value && r.value + |pat| <= |t|
    decreases |t| - i
  {
    if i >= |t| then None else if Has(t, i, pat) then Some(i) else Find(t, pat, i + 1)
  }

  /** `find` gives the first place, if there is one. */
  lemma {:induction false} FindFirst(t: string, pat: string, i: nat, p: nat)
    requires pat != []
    ensures Find(t, pat, i) == Some(p) <==> i <= p && Has(t, p, pat) && forall s :: i <= s < p ==> !Has(t, s, pat)
    decreases |t| - i
  {
    if i < |t| {
      if !Has(t, i, pat) {
        FindFirst(t, pat, i + 1, p);
        if i <= p && Has(t, p, pat) { assert i < p; }
      } else if i < p {
        assert Has(t, i, pat);
      }
    }
  }

  // ------------------------------------------------------------------ stripping

  /** What `str.isspace` says of a character. */
  type Space = char -> bool

  function StripLeft(space: Space, s: string): (r: string)
    ensures |r| <= |s| && (r != [] ==> !space(r[0]))
  {
    if s != [] && space(s[0]) then StripLeft(space, s[1..]) else s
  }

  function StripRight(space: Space, s: string): (r: string)
    ensures |r| <= |s| && r <= s && (r != [] ==> !space(r[|r| - 1]))
  {
    if s != [] && space(s[|s| - 1]) then StripRight(space, s[..|s| - 1]) else s
  }

  /** `s.strip()`. */
  function Strip(space: Space, s: string): (r: string)
    ensures |r| <= |s|
  {
    StripRight(space, StripLeft(space, s))
  }

  predicate AllSpace(space: Space, s: string) {
    forall i :: 0 <= i < |s| ==> space(s[i])
  }

  lemma {:induction false} StripLeftPad(space: Space, pad: string, s: string)
    requires AllSpace(space, pad) && (s != [] ==> !space(s[0]))
    ensures StripLeft(space, pad + s) == s
    decreases |pad|
  {
    if pad == [] {
      assert pad + s == s;
    } else {
      assert (pad + s)[1..] == pad[1..] + s;
      assert (pad + s)[0] == pad[0];
      StripLeftPad(space, pad[1..], s);
    }
  }

  lemma {:induction false} StripRightPad(space: Space, s: string, pad: string)
    requires AllSpace(space, pad) && (s != [] ==> !space(s[|s| - 1]))
    ensures StripRight(space, s + pad) == s
    decreases |pad|
  {
    if pad == [] {
      assert s + pad == s;
    } else {
      var n := |pad| - 1;
      assert (s + pad)[..|s| + n] == s + pad[..n];
      assert (s + pad)[|s| + n] == pad[n];
      StripRightPad(space, s, pad[..n]);
    }
  }

  lemma StripPadded(space: Space, left: string, s: string, right: string)
    requires AllSpace(space, left) && AllSpace(space, right)
    requires s != [] && !space(s[0]) && !space(s[|s| - 1])
    ensures Strip(space, left + s + right) == s
  {
    assert left + s + right == left + (s + right);
    StripLeftPad(space, left, s + right);
    StripRightPad(space, s, right);
  }

  lemma {:induction false} StripLeftParts(space: Space, s: string) returns (left: string)
    ensures AllSpace(space, left) && s == left + StripLeft(space, s)
  {
    if s != [] && space(s[0]) {
      var rest := StripLeftParts(space, s[1..]);
      left := [s[0]] + rest;
      assert s == [s[0]] + s[1..];
    } else {
      left := "";
    }
  }

  lemma {:induction false} StripRightParts(space: Space, s: string) returns (right: string)
    ensures AllSpace(space, right) && s == StripRight(space, s) + right
  {
    if s != [] && space(s[|s| - 1]) {
      var rest := StripRightParts(space, s[..|s| - 1]);
      right := rest + [s[|s| - 1]];
      assert s == s[..|s| - 1] + [s[|s| - 1]];
    } else {
      right := "";
    }
  }

  /** What stripping takes away is space, before and behind. */
  lemma StripParts(space: Space, s: string) returns (left: string, right: string)
    ensures AllSpace(space, left) && AllSpace(space, right) && s == left + Strip(space, s) + right
  {
    left := StripLeftParts(space, s);
    right := StripRightParts(space, StripLeft(space, s));
    assert s == left + (Strip(space, s) + right);
  }

  lemma {:induction false} StripRightMore(space: Space, s: string, pad: string)
    requires AllSpace(space, pad)
    ensures StripRight(space, s + pad) == StripRight(space, s)
    decreases |pad|
  {
    if pad == [] {
      assert s + pad == s;
    } else {
      var n := |pad| - 1;
      assert (s + pad)[..|s| + n] == s + pad[..n];
      assert (s + pad)[|s| + n] == pad[n];
      StripRightMore(space, s, pad[..n]);
    }
  }

  lemma {:induction false} StripLeftMore(space: Space, s: string, pad: string)
    requires AllSpace(space, pad)
    ensures StripLeft(space, s + pad) == if StripLeft(space, s) == "" then "" else StripLeft(space, s) + pad
    decreases |s|
  {
    if s == [] {
      assert s + pad == pad == pad + "";
      StripLeftPad(space, pad, "");
    } else {
      assert (s + pad)[0] == s[0];
      if space(s[0]) {
        assert (s + pad)[1..] == s[1..] + pad;
        StripLeftMore(space, s[1..], pad);
      }
    }
  }

  /** Space behind a text changes nothing about what stripping leaves. */
  lemma StripMore(space: Space, s: string, pad: string)
    requires AllSpace(space, pad)
    ensures Strip(space, s + pad) == Strip(space, s)
  {
    StripLeftMore(space, s, pad);
    StripRightMore(space, StripLeft(space, s), pad);
  }

  // ------------------------------------------------------------------ decimal numbers

  predicate IsDigit(c: char) { '0' <= c <= '9' }

  function DigitOf(n: nat): (c: char)
    requires n < 10
    ensures IsDigit(c)
  {
    '0' + n as char
  }

  /** `str(n)`. */
  function Decimal(n: nat): (r: string)
    ensures r != "" && forall i :: 0 <= i < |r| ==> IsDigit(r[i])
  {
    if n < 10 then [DigitOf(n)] else Decimal(n / 10) + [DigitOf(n % 10)]
  }

  /** ASCII digits, with single underscores between them, as `int` reads them. */
  function Number(s: string): Option<nat>
    decreases |s|
  {
    if s == "" || !IsDigit(s[|s| - 1]) then None
    else
      var v := s[|s| - 1] as int - '0' as int;
      var rest := s[..|s| - 1];
      if rest == "" then Some(v)
      else
        match Number(if rest[|rest| - 1] == '_' then rest[..|rest| - 1] else rest)
        case None => None
        case Some(n) => Some(10 * n + v)
  }

  /** `int(s)`; None where it raises. */
  function Int(space: Space, s: string): Option<int> {
    var t := Strip(space, s);
    if t != "" && (t[0] == '-' || t[0] == '+') then Signed(t[0] == '-', Number(t[1..])) else Signed(false, Number(t))
  }

  function Signed(negative: bool, n: Option<nat>): Option<int> {
    match n case None => None case Some(k) => Some((if negative then -1 else 1) * k)
  }

  lemma {:induction false} NumberDecimal(n: nat)
    ensures Number(Decimal(n)) == Some(n)
  {
    if n >= 10 {
      NumberDecimal(n / 10);
      var front := Decimal(n / 10);
      assert Decimal(n)[..|front|] == front;
      assert IsDigit(front[|front| - 1]);
    }
  }

  ghost predicate DigitsShow(space: Space) {
    space(' ') && forall c :: IsDigit(c) ==> !space(c)
  }

  /** Whatever space is around it, a decimal number is read back. */
  lemma IntDecimal(space: Space, left: string, n: nat, right: string)
    requires DigitsShow(space) && AllSpace(space, left) && AllSpace(space, right)
    ensures Int(space, left + Decimal(n) + right) == Some(n)
  {
    var s := Decimal(n);
    assert IsDigit(s[0]) && IsDigit(s[|s| - 1]);
    StripPadded(space, left, s, right);
    NumberDecimal(n);
  }

  lemma {:induction false} NumberEnds(s: string)
    requires Number(s).Some?
    ensures s != "" && IsDigit(s[0]) && IsDigit(s[|s| - 1])
    decreases |s|
  {
    var rest := s[..|s| - 1];
    if rest != "" { NumberEnds(if rest[|rest| - 1] == '_' then rest[..|rest| - 1] else rest); }
  }

  /** A number that is read with one notion of space is read alike with a wider one. */
  lemma IntWider(narrow: Space, wide: Space, s: string)
    requires forall c :: narrow(c) ==> wide(c)
    requires forall c :: IsDigit(c) || c == '-' || c == '+' ==> !wide(c)
    requires Int(narrow, s).Some?
    ensures Int(wide, s) == Int(narrow, s) && Strip(wide, s) == Strip(narrow, s) != ""
  {
    var t := Strip(narrow, s);
    var left, right := StripParts(narrow, s);
    if t != "" && (t[0] == '-' || t[0] == '+') { NumberEnds(t[1..]); } else { NumberEnds(t); }
    StripPadded(wide, left, t, right);
  }

  function Pow10(k: nat): (r: nat)
    ensures r >= 1
  {
    if k == 0 then 1 else 10 * Pow10(k - 1)
  }

  lemma {:induction false} PowMonotone(a: nat, b: nat)
    requires a <= b
    ensures Pow10(a) <= Pow10(b)
    decreases b
  {
    if a < b { PowMonotone(a, b - 1); }
  }

  lemma {:induction false} NumberBound(s: string)
    requires Number(s).Some?
    ensures Number(s).value < Pow10(|s|)
    decreases |s|
  {
    var rest := s[..|s| - 1];
    if rest != "" {
      var t := if rest[|rest| - 1] == '_' then rest[..|rest| - 1] else rest;
      NumberBound(t);
      PowMonotone(|t|, |rest|);
    }
  }

  lemma IntBound(space: Space, s: string, k: nat)
    requires Int(space, s).Some? && |s| <= k
    ensures Int(space, s).value < Pow10(k)
  {
    var t := Strip(space, s);
    var u := if t != "" && (t[0] == '-' || t[0] == '+') then t[1..] else t;
    NumberBound(u);
    PowMonotone(|u|, k);
  }

  /** `n` takes at most `k` columns exactly when it is below `10^k`. */
  lemma {:induction false} DecimalWidth(n: nat, k: nat)
    requires k >= 1
    ensures |Decimal(n)| <= k <==> n < Pow10(k)
    decreases n
  {
    if n >= 10 {
      if k == 1 {
        assert |Decimal(n / 10)| >= 1;
        assert Pow10(1) == 10 * Pow10(0) == 10;
      } else {
        DecimalWidth(n / 10, k - 1);
      }
    } else {
      assert Pow10(k) == 10 * Pow10(k - 1);
    }
  }
}
