/** `render` of ci/gen-third-party-notices.py: rewriting the generated regions of the notices in place. */
module NoticesRender {
  import opened Options
  import opened Text

  /** The markers of a group's region, and the table that goes between them. */
  datatype Group = Group(begin: string, end: string, table: string)

  /** Where a region starts and ends. */
  type Place = (nat, nat)

  function Head(g: Group): string { g.begin + "\n" }
  function Tail(g: Group): string { "\n" + g.end }

  /** The first match of the begin marker, a newline, as little as possible, a newline, and the end marker. */
  function Region(text: string, g: Group): (r: Option<Place>)
    ensures r.Some? ==> r.value.0 + |Head(g)| + |Tail(g)| <= r.value.1 <= |text|
  {
    match Find(text, Head(g), 0)
    case None => None
    case Some(p) =>
      match Find(text, Tail(g), p + |Head(g)|)
      case None => None
      case Some(e) => Some((p, e + |Tail(g)|))
  }

  /** The begin marker at `p`, the end marker up to `q`, each with its newline, and no earlier one of either. */
  ghost predicate RegionText(t: string, g: Group, p: nat, q: nat) {
    && Has(t, p, g.begin + "\n") && (forall s: nat :: s < p ==> !Has(t, s, g.begin + "\n"))
    && p + |g.begin| + 1 + |g.end| + 1 <= q && Has(t, q - |g.end| - 1, "\n" + g.end)
    && forall s: nat :: p + |g.begin| + 1 <= s < q - |g.end| - 1 ==> !Has(t, s, "\n" + g.end)
  }

  lemma RegionTextIs(t: string, g: Group, p: nat, q: nat)
    ensures RegionText(t, g, p, q) <==>
      && q >= |Tail(g)| && p + |Head(g)| <= q - |Tail(g)|
      && Has(t, p, Head(g)) && (forall s: nat :: s < p ==> !Has(t, s, Head(g)))
      && Has(t, q - |Tail(g)|, Tail(g)) && forall s: nat :: p + |Head(g)| <= s < q - |Tail(g)| ==> !Has(t, s, Tail(g))
  {
    hide Has;
  }

  lemma FirstIs(t: string, pat: string, i: nat, p: nat)
    requires pat != ""
    ensures Find(t, pat, i) == Some(p) <==> i <= p && Has(t, p, pat) && forall s: nat :: i <= s < p ==> !Has(t, s, pat)
  {
    FindFirst(t, pat, i, p);
    hide Find, Has;
  }

  /** The search finds the region that the text has. */
  lemma RegionFound(t: string, g: Group, p: nat, q: nat)
    ensures Region(t, g) == Some((p, q)) <==> RegionText(t, g, p, q)
  {
    hide *;
    Markers(g);
    RegionIs(t, g, p, q);
    RegionTextIs(t, g, p, q);
    FirstIs(t, Head(g), 0, p);
    if q >= |Tail(g)| { FirstIs(t, Tail(g), p + |Head(g)|, q - |Tail(g)|); }
  }

  function Middle(g: Group): string { "\n" + g.table + "\n" }

  function Body(g: Group): string { Head(g) + Middle(g) + Tail(g) }

  function RenderOne(text: string, g: Group): Option<string> {
    match Region(text, g)
    case None => None
    case Some(place) => Some(text[..place.0] + Body(g) + text[place.1..])
  }

  function RenderFrom(text: string, groups: seq<Group>, i: nat): Option<string>
    requires i <= |groups|
    decreases |groups| - i
  {
    if i == |groups| then Some(text)
    else
      match RenderOne(text, groups[i])
      case None => None
      case Some(next) => RenderFrom(next, groups, i + 1)
  }

  // ------------------------------------------------------------------ what may stand in a table

  predicate OneLine(s: string) { s != "" && '\n' !in s && '*' !in s }

  ghost predicate Contains(s: string, pat: string) {
    exists i :: Has(s, i, pat)
  }

  /** No table holds a line that ends like a begin marker, or one that starts like its own end marker. */
  ghost predicate Clean(groups: seq<Group>) {
    && (forall g :: g in groups ==> OneLine(g.begin) && OneLine(g.end) && !Contains(Middle(g), Tail(g)))
    && forall g, h :: g in groups && h in groups ==> !Contains(Middle(g) + "\n", Head(h))
  }

  // ------------------------------------------------------------------ matches that stay when a part is swapped

  ghost predicate SamePrefix(t: string, n: string, m: nat) {
    m <= |t| && m <= |n| && t[..m] == n[..m]
  }

  ghost predicate SameSuffix(t: string, n: string, k: nat, k': nat) {
    k <= |t| && k' <= |n| && t[k..] == n[k'..]
  }

  lemma HasPrefix(t: string, n: string, m: nat, s: nat, pat: string)
    requires SamePrefix(t, n, m) && s + |pat| <= m
    ensures Has(t, s, pat) <==> Has(n, s, pat)
  {
    assert t[s..s + |pat|] == t[..m][s..s + |pat|];
    assert n[s..s + |pat|] == n[..m][s..s + |pat|];
  }

  lemma HasSuffix(t: string, n: string, k: nat, k': nat, s: nat, pat: string)
    requires SameSuffix(t, n, k, k') && s >= k
    ensures Has(t, s, pat) <==> Has(n, s - k + k', pat)
  {
    if s + |pat| <= |t| {
      var i := s - k;
      assert t[s..s + |pat|] == t[k..][i..i + |pat|];
      assert n[i + k'..i + k' + |pat|] == n[k'..][i..i + |pat|];
    }
  }

  /** Every match of `pat` ends by `lo` or starts at `hi` or later. */
  ghost predicate NoCross(n: string, lo: nat, hi: nat, pat: string) {
    forall s: nat :: Has(n, s, pat) ==> s + |pat| <= lo || s >= hi
  }

  lemma RegionIs(text: string, g: Group, p: nat, q: nat)
    ensures Region(text, g) == Some((p, q)) <==>
      (q >= |Tail(g)| && Find(text, Head(g), 0) == Some(p) && Find(text, Tail(g), p + |Head(g)|) == Some(q - |Tail(g)|))
  {
  }

  lemma Markers(g: Group)
    ensures Head(g) != "" && Tail(g) != ""
  {
  }

  lemma KeepBefore(t: string, n: string, m: nat, h: Group, u: nat, v: nat)
    requires SamePrefix(t, n, m) && Region(t, h) == Some((u, v)) && v <= m
    ensures Region(n, h) == Some((u, v))
  {
    hide *;
    RegionIs(t, h, u, v);
    RegionIs(n, h, u, v);
    Markers(h);
    var head, tail, e := Head(h), Tail(h), v - |Tail(h)|;
    FindFirst(t, head, 0, u);
    FindFirst(n, head, 0, u);
    FindFirst(t, tail, u + |head|, e);
    FindFirst(n, tail, u + |head|, e);
    HasPrefix(t, n, m, u, head);
    HasPrefix(t, n, m, e, tail);
    forall s: nat | s < u ensures !Has(n, s, head) { HasPrefix(t, n, m, s, head); }
    forall s: nat | u + |head| <= s < e ensures !Has(n, s, tail) { HasPrefix(t, n, m, s, tail); }
  }

  lemma NotEarly(n: string, lo: nat, hi: nat, pat: string, s: nat)
    requires NoCross(n, lo, hi, pat) && Has(n, s, pat)
    ensures s + |pat| <= lo || s >= hi
  {
  }

  lemma KeepAfter(t: string, n: string, lo: nat, hi: nat, hi': nat, h: Group, u: nat, v: nat)
    requires SamePrefix(t, n, lo) && SameSuffix(t, n, hi, hi') && lo <= hi && lo <= hi'
    requires Region(t, h) == Some((u, v)) && u >= hi && NoCross(n, lo, hi', Head(h))
    ensures Region(n, h) == Some((u - hi + hi', v - hi + hi'))
  {
    hide *;
    RegionIs(t, h, u, v);
    RegionIs(n, h, u - hi + hi', v - hi + hi');
    Markers(h);
    var head, tail, e := Head(h), Tail(h), v - |Tail(h)|;
    FindFirst(t, head, 0, u);
    FindFirst(n, head, 0, u - hi + hi');
    FindFirst(t, tail, u + |head|, e);
    FindFirst(n, tail, u - hi + hi' + |head|, e - hi + hi');
    HasSuffix(t, n, hi, hi', u, head);
    HasSuffix(t, n, hi, hi', e, tail);
    forall s: nat | s < u - hi + hi' ensures !Has(n, s, head) {
      if Has(n, s, head) {
        NotEarly(n, lo, hi', head, s);
        if s + |head| <= lo {
          HasPrefix(t, n, lo, s, head);
        } else {
          HasSuffix(t, n, hi, hi', s - hi' + hi, head);
        }
      }
    }
    forall s: nat | u - hi + hi' + |head| <= s < e - hi + hi' ensures !Has(n, s, tail) {
      HasSuffix(t, n, hi, hi', s - hi' + hi, tail);
    }
  }

  // ------------------------------------------------------------------ one region rewritten

  lemma HasChar(t: string, s: nat, pat: string, i: nat)
    requires Has(t, s, pat) && s <= i < s + |pat|
    ensures i < |t| && t[i] == pat[i - s]
  {
    assert t[s..s + |pat|][i - s] == t[i];
  }

  /** Where marker text matches there is no character it does not have. */
  lemma NotInHead(t: string, s: nat, b: string, i: nat, c: char)
    ensures Has(t, s, b + "\n") && c !in b && s <= i < s + |b| ==> i < |t| && t[i] != c
  {
    if Has(t, s, b + "\n") && c !in b && s <= i < s + |b| {
      HasChar(t, s, b + "\n", i);
      assert (b + "\n")[i - s] == b[i - s];
    }
  }

  lemma NotInTail(t: string, s: nat, e: string, i: nat, c: char)
    ensures Has(t, s, "\n" + e) && c !in e && s < i <= s + |e| ==> i < |t| && t[i] != c
  {
    if Has(t, s, "\n" + e) && c !in e && s < i <= s + |e| {
      HasChar(t, s, "\n" + e, i);
      assert ("\n" + e)[i - s] == e[i - s - 1];
    }
  }

  lemma HasInside(t: string, a: nat, b: nat, s: nat, pat: string)
    requires b <= |t|
    ensures a <= s && s + |pat| <= b && Has(t, s, pat) ==> Contains(t[a..b], pat)
  {
    if a <= s && s + |pat| <= b && Has(t, s, pat) {
      var i := s - a;
      assert t[a..b][i..i + |pat|] == t[s..s + |pat|];
      assert Has(t[a..b], i, pat);
    }
  }

  /** A line that no table ends with cannot match across a rewritten middle. */
  lemma LinesDoNotCross(n: string, lo: nat, hi: nat, b: string)
    requires 1 <= lo <= hi < |n| && n[lo - 1] == '\n' && n[hi] == '\n'
    requires '\n' !in b && !Contains(n[lo..hi + 1], b + "\n")
    ensures NoCross(n, lo, hi, b + "\n")
  {
    var pat := b + "\n";
    forall s: nat | Has(n, s, pat) ensures s + |pat| <= lo || s >= hi {
      NotInHead(n, s, b, lo - 1, '\n');
      NotInHead(n, s, b, hi, '\n');
      HasInside(n, lo, hi + 1, s, pat);
    }
  }

  lemma CutBehind(t: string, p: nat, pat: string)
    requires Has(t, p, pat)
    ensures p + |pat| <= |t| && t[..p + |pat|] == t[..p] + pat && t[p..] == pat + t[p + |pat|..]
  {
    assert t[..p + |pat|] == t[..p] + t[p..p + |pat|];
    assert t[p..] == t[p..p + |pat|] + t[p + |pat|..];
  }

  lemma Nested(a: string, h: string, m: string, e: string, c: string)
    ensures a + (h + m + e) + c == a + h + m + (e + c)
  {
  }

  lemma BodyIs(g: Group)
    ensures Body(g) == Head(g) + Middle(g) + Tail(g)
  {
    hide Head, Middle, Tail;
  }

  /** The text before a region and its head, the text from its tail on, and the rewritten text. */
  lemma Shape(t: string, g: Group, p: nat, q: nat)
    requires Region(t, g) == Some((p, q))
    ensures var lo, hi := p + |Head(g)|, q - |Tail(g)|;
      && lo <= hi <= q <= |t| && t[..lo] == t[..p] + Head(g) && t[hi..] == Tail(g) + t[q..]
      && RenderOne(t, g) == Some(t[..lo] + Middle(g) + t[hi..])
  {
    hide *;
    RegionIs(t, g, p, q);
    RegionFits(t, g, p, q);
    RenderOneIs(t, g, p, q);
    Markers(g);
    BodyIs(g);
    var head, tail, lo, hi := Head(g), Tail(g), p + |Head(g)|, q - |Tail(g)|;
    FindFirst(t, head, 0, p);
    FindFirst(t, tail, lo, hi);
    CutBehind(t, p, head);
    CutBehind(t, hi, tail);
    Nested(t[..p], head, Middle(g), tail, t[q..]);
  }

  ghost predicate Frame(t: string, n: string, g: Group, p: nat, q: nat) {
    var lo, hi, m := p + |Head(g)|, q - |Tail(g)|, |Middle(g)|;
    && lo <= hi <= q <= |t| && SamePrefix(t, n, lo) && SameSuffix(t, n, hi, lo + m)
    && n[lo..lo + m] == Middle(g) && n[..lo] == t[..p] + Head(g) && n[lo + m..] == Tail(g) + t[q..]
  }

  lemma Rewritten(t: string, g: Group, p: nat, q: nat) returns (n: string)
    requires Region(t, g) == Some((p, q))
    ensures RenderOne(t, g) == Some(n) && Frame(t, n, g, p, q)
  {
    Shape(t, g, p, q);
    var lo, hi, m := p + |Head(g)|, q - |Tail(g)|, Middle(g);
    var left, right := t[..lo], t[hi..];
    n := left + m + right;
    assert n[..lo] == left && n[lo + |m|..] == right && n[lo..lo + |m|] == m;
  }

  ghost predicate CleanGroup(g: Group) {
    OneLine(g.begin) && OneLine(g.end) && !Contains(Middle(g), Tail(g))
  }

  lemma TailAfterMiddle(n: string, lo: nat, g: Group)
    requires CleanGroup(g) && lo + |Middle(g)| < |n| && n[lo..lo + |Middle(g)|] == Middle(g) && n[lo + |Middle(g)|] == '\n'
    ensures forall s: nat :: lo <= s < lo + |Middle(g)| ==> !Has(n, s, Tail(g))
  {
    var hi, tail := lo + |Middle(g)|, Tail(g);
    forall s: nat | lo <= s < hi ensures !Has(n, s, tail) {
      HasInside(n, lo, hi, s, tail);
      NotInTail(n, s, g.end, hi, '\n');
    }
  }

  lemma HasFront(t: string, i: nat, pat: string, rest: string)
    requires i <= |t| && t[i..] == pat + rest && pat != ""
    ensures Has(t, i, pat) && t[i] == pat[0]
  {
    assert t[i..i + |pat|] == t[i..][..|pat|];
  }

  lemma HasBack(t: string, m: nat, front: string, pat: string)
    requires m <= |t| && t[..m] == front + pat && pat != ""
    ensures Has(t, |front|, pat) && t[m - 1] == pat[|pat| - 1]
  {
    assert t[|front|..m] == t[..m][|front|..];
    assert t[m - 1] == t[..m][m - 1];
  }

  lemma FrameEnds(t: string, n: string, g: Group, p: nat, q: nat)
    requires Frame(t, n, g, p, q) && p <= |t|
    ensures var lo := p + |Head(g)|; var hi := lo + |Middle(g)|;
      hi <= |n| && q <= |t| && n[..lo] == t[..p] + Head(g) && n[hi..] == Tail(g) + t[q..]
  {
  }

  lemma MarkerEnds(g: Group)
    ensures Head(g) != "" && Tail(g) != "" && Head(g)[|Head(g)| - 1] == '\n' && Tail(g)[0] == '\n'
  {
  }

  lemma FrameHas(t: string, n: string, g: Group, p: nat, q: nat)
    requires Frame(t, n, g, p, q) && p <= |t|
    ensures var lo := p + |Head(g)|; var hi := lo + |Middle(g)|;
      hi < |n| && n[hi] == '\n' && Has(n, p, Head(g)) && Has(n, hi, Tail(g)) && lo >= 1 && n[lo - 1] == '\n'
  {
    hide *;
    FrameEnds(t, n, g, p, q);
    MarkerEnds(g);
    var lo := p + |Head(g)|;
    var hi := lo + |Middle(g)|;
    HasBack(n, lo, t[..p], Head(g));
    HasFront(n, hi, Tail(g), t[q..]);
    assert |n[hi..]| == |n| - hi;
  }

  lemma FrameParts(t: string, n: string, g: Group, p: nat, q: nat)
    requires Frame(t, n, g, p, q)
    ensures var lo := p + |Head(g)|; SamePrefix(t, n, lo) && lo + |Middle(g)| <= |n| && n[lo..lo + |Middle(g)|] == Middle(g)
    ensures var lo := p + |Head(g)|; q >= |Tail(g)| && lo <= q - |Tail(g)| && SameSuffix(t, n, q - |Tail(g)|, lo + |Middle(g)|)
    ensures |Body(g)| == |Head(g)| + |Middle(g)| + |Tail(g)| && p <= |t|
  {
  }

  /** The rewritten region is found again, and holds the table. */
  lemma FoundAgain(t: string, n: string, g: Group, p: nat, q: nat)
    requires Region(t, g) == Some((p, q)) && Frame(t, n, g, p, q) && CleanGroup(g)
    ensures Region(n, g) == Some((p, p + |Body(g)|))
  {
    hide *;
    var head, tail, mid := Head(g), Tail(g), Middle(g);
    var lo := p + |head|;
    var hi' := lo + |mid|;
    FrameParts(t, n, g, p, q);
    FrameHas(t, n, g, p, q);
    RegionIs(t, g, p, q);
    RegionIs(n, g, p, p + |Body(g)|);
    Markers(g);
    FindFirst(t, head, 0, p);
    FindFirst(n, head, 0, p);
    FindFirst(n, tail, lo, hi');
    forall s: nat | s < p ensures !Has(n, s, head) { HasPrefix(t, n, lo, s, head); }
    TailAfterMiddle(n, lo, g);
  }

  // ------------------------------------------------------------------ the other regions stay

  predicate Apart(a: Place, b: Place) { a.1 <= b.0 || b.1 <= a.0 }

  /** Where a place is once the region `p..q` ends at `q'`. */
  function Moved(at: Place, p: nat, q: nat, q': nat): (int, int) {
    if at.1 <= p then at else (at.0 - q + q', at.1 - q + q')
  }

  ghost predicate Settled(t: string, g: Group) {
    Region(t, g).Some? && t[Region(t, g).value.0..Region(t, g).value.1] == Body(g)
  }

  lemma FrameLines(t: string, n: string, g: Group, p: nat, q: nat, h: Group)
    requires Frame(t, n, g, p, q) && OneLine(h.begin) && !Contains(Middle(g) + "\n", Head(h))
    ensures var lo := p + |Head(g)|; NoCross(n, lo, lo + |Middle(g)|, Head(h))
  {
    var lo := p + |Head(g)|;
    var hi := lo + |Middle(g)|;
    FrameHas(t, n, g, p, q);
    assert n[lo..hi + 1] == n[lo..hi] + [n[hi]] == Middle(g) + "\n";
    LinesDoNotCross(n, lo, hi, h.begin);
  }

  lemma FrontSlice(x: string, m: nat, u: nat, v: nat)
    requires u <= v <= m <= |x|
    ensures x[..m][u..v] == x[u..v]
  {
  }

  lemma BackSlice(x: string, k: nat, a: nat, b: nat)
    requires a <= b && k + b <= |x|
    ensures x[k..][a..b] == x[k + a..k + b]
  {
  }

  lemma SlicePrefix(t: string, n: string, m: nat, u: nat, v: nat)
    requires SamePrefix(t, n, m) && u <= v <= m
    ensures t[u..v] == n[u..v]
  {
    FrontSlice(t, m, u, v);
    FrontSlice(n, m, u, v);
  }

  lemma SliceSuffix(t: string, n: string, k: nat, k': nat, u: nat, v: nat)
    requires SameSuffix(t, n, k, k') && k <= u <= v <= |t|
    ensures v - k + k' <= |n| && t[u..v] == n[u - k + k'..v - k + k']
  {
    BackSlice(t, k, u - k, v - k);
    BackSlice(n, k', u - k, v - k);
  }

  /** Rewriting one region leaves the text of another, and finds it where it has moved to. */
  lemma OtherKept(t: string, n: string, g: Group, p: nat, q: nat, h: Group, u: nat, v: nat)
    requires Region(t, g) == Some((p, q)) && Frame(t, n, g, p, q) && Region(t, h) == Some((u, v)) && Apart((p, q), (u, v))
    requires OneLine(h.begin) && !Contains(Middle(g) + "\n", Head(h))
    ensures var (u', v') := Moved((u, v), p, q, p + |Body(g)|);
      0 <= u' <= v' <= |n| && Region(n, h) == Some((u', v')) && n[u'..v'] == t[u..v]
  {
    hide *;
    var lo, hi, m := p + |Head(g)|, q - |Tail(g)|, |Middle(g)|;
    FrameParts(t, n, g, p, q);
    FrameLines(t, n, g, p, q, h);
    RegionFits(t, g, p, q);
    RegionFits(t, h, u, v);
    MovedIs((u, v), (p, q), p + |Body(g)|);
    if v <= p {
      KeepBefore(t, n, lo, h, u, v);
      SlicePrefix(t, n, lo, u, v);
      RegionFits(n, h, u, v);
    } else {
      KeepAfter(t, n, lo, hi, lo + m, h, u, v);
      SliceSuffix(t, n, hi, lo + m, u, v);
    }
  }

  lemma MovedIs(at: Place, region: Place, q': nat)
    requires Apart(region, at)
    ensures at.1 <= region.0 || region.1 <= at.0
    ensures Moved(at, region.0, region.1, q') == if at.1 <= region.0 then at else (at.0 - region.1 + q', at.1 - region.1 + q')
  {
  }

  lemma RegionFits(t: string, g: Group, p: nat, q: nat)
    requires Region(t, g) == Some((p, q))
    ensures p + |Head(g)| + |Tail(g)| <= q <= |t|
  {
  }

  // ------------------------------------------------------------------ all regions

  /** Every group has its region, and no two overlap. */
  ghost predicate Regions(t: string, groups: seq<Group>) {
    && (forall i :: 0 <= i < |groups| ==> Region(t, groups[i]).Some?)
    && forall i, j :: 0 <= i < j < |groups| ==> Apart(Region(t, groups[i]).value, Region(t, groups[j]).value)
  }

  lemma CleanPair(groups: seq<Group>, i: nat, j: nat)
    requires Clean(groups) && i < |groups| && j < |groups|
    ensures CleanGroup(groups[i]) && OneLine(groups[j].begin) && !Contains(Middle(groups[i]) + "\n", Head(groups[j]))
  {
    assert groups[i] in groups && groups[j] in groups;
  }

  lemma BothApart(t: string, groups: seq<Group>, i: nat, j: nat)
    requires Regions(t, groups) && i < |groups| && j < |groups| && i != j
    ensures Region(t, groups[i]).Some? && Region(t, groups[j]).Some? && Apart(Region(t, groups[i]).value, Region(t, groups[j]).value)
  {
  }

  /** Group `h` is found where its region has moved to, as settled as it was. */
  ghost predicate Kept(t: string, n: string, h: Group, p: nat, q: nat, q': nat) {
    && Region(n, h).Some? && Region(t, h).Some? && Region(n, h).value == Moved(Region(t, h).value, p, q, q')
    && Apart((p, q), Region(t, h).value)
    && (Settled(t, h) ==> Settled(n, h))
  }

  lemma PlaceOf(t: string, groups: seq<Group>, i: nat) returns (p: nat, q: nat)
    requires Regions(t, groups) && i < |groups|
    ensures Region(t, groups[i]) == Some((p, q)) && p <= q <= |t|
  {
    p, q := Region(t, groups[i]).value.0, Region(t, groups[i]).value.1;
  }

  lemma SettledIs(n: string, g: Group, p: nat, q: nat)
    requires Region(n, g) == Some((p, q)) && q <= |n| && p <= q && n[p..q] == Body(g)
    ensures Settled(n, g)
  {
  }

  /** Rewriting region `i` settles it, keeps the others as they were, and keeps them all apart. */
  lemma StepKeeps(t: string, groups: seq<Group>, i: nat) returns (n: string)
    requires Regions(t, groups) && Clean(groups) && i < |groups|
    ensures RenderOne(t, groups[i]) == Some(n) && Regions(n, groups) && Settled(n, groups[i])
    ensures forall j :: 0 <= j < |groups| && Settled(t, groups[j]) ==> Settled(n, groups[j])
  {
    hide *;
    var g := groups[i];
    var p, q := PlaceOf(t, groups, i);
    n := Rewritten(t, g, p, q);
    CleanPair(groups, i, i);
    FoundAgain(t, n, g, p, q);
    FrameBody(t, n, g, p, q);
    var q' := p + |Body(g)|;
    SettledIs(n, g, p, q');
    forall j | 0 <= j < |groups| && j != i ensures Kept(t, n, groups[j], p, q, q') { OtherStep(t, n, groups, i, j, p, q); }
    forall j | 0 <= j < |groups| && Settled(t, groups[j]) ensures Settled(n, groups[j]) {
      if j != i { KeptSettled(t, n, groups[j], p, q, q'); }
    }
    MovedApart(t, n, groups, i, p, q, q');
  }

  lemma KeptSettled(t: string, n: string, h: Group, p: nat, q: nat, q': nat)
    requires Kept(t, n, h, p, q, q') && Settled(t, h)
    ensures Settled(n, h)
  {
  }

  lemma FrameBody(t: string, n: string, g: Group, p: nat, q: nat)
    requires Frame(t, n, g, p, q) && p <= |t|
    ensures p + |Body(g)| <= |n| && n[p..p + |Body(g)|] == Body(g)
  {
    var lo, m, tail := p + |Head(g)|, |Middle(g)|, Tail(g);
    assert n[p..lo] == n[..lo][p..] == Head(g);
    assert n[lo + m..lo + m + |tail|] == n[lo + m..][..|tail|] == tail;
    assert n[p..p + |Body(g)|] == n[p..lo] + n[lo..lo + m] + n[lo + m..lo + m + |tail|];
  }

  lemma OtherStep(t: string, n: string, groups: seq<Group>, i: nat, j: nat, p: nat, q: nat)
    requires Regions(t, groups) && Clean(groups) && i < |groups| && j < |groups| && i != j
    requires Region(t, groups[i]) == Some((p, q)) && Frame(t, n, groups[i], p, q)
    ensures Kept(t, n, groups[j], p, q, p + |Body(groups[i])|)
  {
    BothApart(t, groups, i, j);
    CleanPair(groups, i, j);
    var (u, v) := Region(t, groups[j]).value;
    RegionFits(t, groups[j], u, v);
    hide Region, Contains, Frame, OneLine, Clean, Regions, Body;
    OtherKept(t, n, groups[i], p, q, groups[j], u, v);
  }

  lemma MovedApart(t: string, n: string, groups: seq<Group>, i: nat, p: nat, q: nat, q': nat)
    requires Regions(t, groups) && i < |groups| && Region(t, groups[i]) == Some((p, q)) && p <= q && p <= q'
    requires Region(n, groups[i]) == Some((p, q'))
    requires forall j :: 0 <= j < |groups| && j != i ==> Kept(t, n, groups[j], p, q, q')
    ensures Regions(n, groups)
  {
    hide Region;
    forall j, k | 0 <= j < k < |groups| ensures Apart(Region(n, groups[j]).value, Region(n, groups[k]).value) {
      BothApart(t, groups, j, k);
    }
  }

  // ------------------------------------------------------------------ all regions rewritten

  ghost predicate AllSettled(t: string, groups: seq<Group>, n: nat) {
    forall j :: 0 <= j < n && j < |groups| ==> Settled(t, groups[j])
  }

  lemma RenderUnfold(t: string, n: string, groups: seq<Group>, i: nat)
    requires i < |groups| && RenderOne(t, groups[i]) == Some(n)
    ensures RenderFrom(t, groups, i) == RenderFrom(n, groups, i + 1)
  {
    hide RenderOne;
  }

  lemma RenderNone(t: string, groups: seq<Group>)
    ensures RenderFrom(t, groups, |groups|) == Some(t)
  {
  }

  /** Rewriting goes through, and leaves every region with its table. */
  lemma {:induction false} RenderSettles(t: string, groups: seq<Group>, i: nat) returns (n: string)
    requires Regions(t, groups) && Clean(groups) && i <= |groups| && AllSettled(t, groups, i)
    ensures RenderFrom(t, groups, i) == Some(n) && Regions(n, groups) && AllSettled(n, groups, |groups|)
    decreases |groups| - i
  {
    hide Regions, Clean, Settled, RenderOne, RenderFrom;
    if i == |groups| {
      RenderNone(t, groups);
      n := t;
    } else {
      var next := StepKeeps(t, groups, i);
      RenderUnfold(t, next, groups, i);
      n := RenderSettles(next, groups, i + 1);
    }
  }

  lemma SettledStays(t: string, g: Group)
    requires Settled(t, g)
    ensures RenderOne(t, g) == Some(t)
  {
    var (p, q) := Region(t, g).value;
    hide Region, Body;
    assert t == t[..p] + t[p..q] + t[q..];
  }

  /** A text with every table in place is left as it is. */
  lemma {:induction false} RenderStays(t: string, groups: seq<Group>, i: nat)
    requires i <= |groups| && AllSettled(t, groups, |groups|)
    ensures RenderFrom(t, groups, i) == Some(t)
    decreases |groups| - i
  {
    hide Settled, RenderOne;
    if i < |groups| {
      SettledStays(t, groups[i]);
      RenderStays(t, groups, i + 1);
    }
  }

  // ------------------------------------------------------------------ what is outside the regions

  function Empty(g: Group): Group { g.(table := "") }

  function Emptied(groups: seq<Group>): seq<Group> {
    seq(|groups|, i requires 0 <= i < |groups| => Empty(groups[i]))
  }

  lemma SameMarkers(t: string, g: Group)
    ensures Head(Empty(g)) == Head(g) && Tail(Empty(g)) == Tail(g) && Region(t, Empty(g)) == Region(t, g)
  {
  }

  lemma NoLineIn(s: string, b: string)
    requires s == "\n\n" || s == "\n\n\n"
    requires OneLine(b)
    ensures !Contains(s, b + "\n") && !Contains(s, "\n" + b)
  {
    assert b[0] in b;
    assert forall i :: 0 <= i < |s| ==> s[i] == '\n';
    forall i: nat ensures !Has(s, i, b + "\n") {
      if Has(s, i, b + "\n") { HasChar(s, i, b + "\n", i); }
    }
    forall i: nat ensures !Has(s, i, "\n" + b) {
      if Has(s, i, "\n" + b) { HasChar(s, i, "\n" + b, i + 1); }
    }
  }

  lemma CleanEmptied(groups: seq<Group>)
    requires Clean(groups)
    ensures Clean(Emptied(groups)) && |Emptied(groups)| == |groups|
  {
    hide Contains;
    var empty := Emptied(groups);
    forall g | g in empty ensures OneLine(g.begin) && OneLine(g.end) && !Contains(Middle(g), Tail(g)) {
      var i :| 0 <= i < |groups| && empty[i] == g;
      assert groups[i] in groups;
      NoLineIn(Middle(g), g.end);
    }
    forall g, h | g in empty && h in empty ensures !Contains(Middle(g) + "\n", Head(h)) {
      var j :| 0 <= j < |groups| && empty[j] == h;
      assert groups[j] in groups;
      assert Middle(g) + "\n" == "\n\n\n";
      NoLineIn("\n\n\n", h.begin);
    }
  }

  lemma RegionsEmptied(t: string, groups: seq<Group>)
    ensures Regions(t, groups) <==> Regions(t, Emptied(groups))
  {
    hide Region;
    forall i | 0 <= i < |groups| ensures Region(t, Emptied(groups)[i]) == Region(t, groups[i]) { SameMarkers(t, groups[i]); }
  }

  /** The text a rewritten region is in, on either side. */
  lemma Sides(t: string, g: Group, n: string, p: nat, q: nat)
    requires Region(t, g) == Some((p, q)) && RenderOne(t, g) == Some(n)
    ensures p <= q <= |t| && n == t[..p] + Body(g) + t[q..]
    ensures p + |Body(g)| <= |n| && n[..p] == t[..p] && n[p + |Body(g)|..] == t[q..]
  {
    hide Body;
    RegionFits(t, g, p, q);
  }

  lemma SplitBefore(t: string, x: string, n: string, p: nat, q: nat, u: nat, v: nat)
    requires p <= q <= u <= v <= |t| && n == t[..p] + x + t[q..]
    ensures var d := |x| - (q - p); 0 <= u + d <= v + d <= |n| && n[..u + d] == t[..p] + x + t[q..u] && n[v + d..] == t[v..]
  {
    var d := |x| - (q - p);
    assert n == (t[..p] + x + t[q..u]) + t[u..] by { assert t[q..] == t[q..u] + t[u..]; }
    assert n == (t[..p] + x + t[q..v]) + t[v..] by { assert t[q..] == t[q..v] + t[v..]; }
  }

  lemma SplitAfter(t: string, x: string, n: string, p: nat, q: nat, u: nat, v: nat)
    requires p <= q <= u <= v <= |t| && n == t[..u] + x + t[v..]
    ensures q <= |n| && n[..p] == t[..p] && n[q..] == t[q..u] + x + t[v..]
  {
    assert n == t[..q] + (t[q..u] + x + t[v..]) by { assert t[..u] == t[..q] + t[q..u]; }
    assert n == t[..p] + (t[p..u] + x + t[v..]) by { assert t[..u] == t[..p] + t[p..u]; }
  }

  lemma RenderOneIs(t: string, g: Group, p: nat, q: nat)
    requires Region(t, g) == Some((p, q))
    ensures p <= q <= |t| && RenderOne(t, g) == Some(t[..p] + Body(g) + t[q..])
  {
  }

  lemma Regrouped(a: string, x: string, m: string, y: string, c: string)
    ensures a + x + (m + y + c) == a + x + m + y + c
  {
  }

  lemma CommuteOrdered(t: string, g: Group, h: Group, a: string, b: string, p: nat, q: nat, u: nat, v: nat, u': nat, v': nat)
    requires Region(t, g) == Some((p, q)) && Region(t, h) == Some((u, v)) && p <= q <= u <= v <= |t|
    requires RenderOne(t, g) == Some(a) && RenderOne(t, h) == Some(b)
    requires u' == u - q + p + |Body(g)| && v' == v - q + p + |Body(g)|
    requires Region(a, h) == Some((u', v')) && Region(b, g) == Some((p, q))
    ensures RenderOne(a, h) == RenderOne(b, g)
  {
    hide *;
    Sides(t, g, a, p, q);
    Sides(t, h, b, u, v);
    RenderOneIs(a, h, u', v');
    RenderOneIs(b, g, p, q);
    var x, y := Body(g), Body(h);
    SplitBefore(t, x, a, p, q, u, v);
    SplitAfter(t, y, b, p, q, u, v);
    Regrouped(t[..p], x, t[q..u], y, t[v..]);
  }

  lemma CommuteBefore(t: string, g: Group, h: Group, p: nat, q: nat, u: nat, v: nat)
    requires Region(t, g) == Some((p, q)) && Region(t, h) == Some((u, v)) && q <= u
    requires OneLine(g.begin) && OneLine(h.begin) && !Contains(Middle(g) + "\n", Head(h)) && !Contains(Middle(h) + "\n", Head(g))
    ensures RenderOne(t, g).Some? && RenderOne(t, h).Some?
    ensures RenderOne(RenderOne(t, g).value, h) == RenderOne(RenderOne(t, h).value, g)
  {
    hide *;
    RegionFits(t, g, p, q);
    RegionFits(t, h, u, v);
    Markers(h);
    var a := Rewritten(t, g, p, q);
    var b := Rewritten(t, h, u, v);
    ApartInOrder(p, q, u, v, p + |Body(g)|, u + |Body(h)|);
    OtherKept(t, a, g, p, q, h, u, v);
    OtherKept(t, b, h, u, v, g, p, q);
    CommuteOrdered(t, g, h, a, b, p, q, u, v, u - q + p + |Body(g)|, v - q + p + |Body(g)|);
  }

  lemma ApartInOrder(p: nat, q: nat, u: nat, v: nat, q': nat, v': nat)
    requires p <= q <= u < v
    ensures Apart((p, q), (u, v)) && Apart((u, v), (p, q))
    ensures Moved((u, v), p, q, q') == (u - q + q', v - q + q') && Moved((p, q), u, v, v') == (p, q)
  {
  }

  /** Of two regions apart, it does not matter which is rewritten first. */
  lemma Commute(t: string, g: Group, h: Group)
    requires Region(t, g).Some? && Region(t, h).Some? && Apart(Region(t, g).value, Region(t, h).value)
    requires OneLine(g.begin) && OneLine(h.begin) && !Contains(Middle(g) + "\n", Head(h)) && !Contains(Middle(h) + "\n", Head(g))
    ensures RenderOne(t, g).Some? && RenderOne(t, h).Some?
    ensures RenderOne(RenderOne(t, g).value, h) == RenderOne(RenderOne(t, h).value, g)
  {
    var (p, q) := Region(t, g).value;
    var (u, v) := Region(t, h).value;
    hide Region, RenderOne, Contains, Head, OneLine, Middle;
    if q <= u { CommuteBefore(t, g, h, p, q, u, v); } else { CommuteBefore(t, h, g, u, v, p, q); }
  }

  /** Rewriting a region twice keeps only the second table. */
  lemma Overwritten(t: string, g: Group, n: string, p: nat, q: nat)
    requires Region(t, g) == Some((p, q)) && RenderOne(t, g) == Some(n) && CleanGroup(g)
    ensures RenderOne(n, Empty(g)) == RenderOne(t, Empty(g))
  {
    hide *;
    var again := Rewritten(t, g, p, q);
    FoundAgain(t, n, g, p, q);
    Sides(t, g, n, p, q);
    SameMarkers(t, g);
    SameMarkers(n, g);
    RenderOneIs(t, Empty(g), p, q);
    RenderOneIs(n, Empty(g), p, p + |Body(g)|);
  }

  /** What is left of a text when every region is emptied. */
  function Outline(t: string, groups: seq<Group>): Option<string> {
    RenderFrom(t, Emptied(groups), 0)
  }

  lemma EmptiedAt(groups: seq<Group>, j: nat)
    requires j < |groups|
    ensures |Emptied(groups)| == |groups| && Emptied(groups)[j] == Empty(groups[j])
  {
  }

  lemma CommuteEmpty(t: string, groups: seq<Group>, i: nat, j: nat)
    requires Regions(t, groups) && Clean(groups) && i < |groups| && j < |groups| && i != j
    ensures var g, h := groups[i], Empty(groups[j]);
      RenderOne(t, g).Some? && RenderOne(t, h).Some? && RenderOne(RenderOne(t, g).value, h) == RenderOne(RenderOne(t, h).value, g)
  {
    BothApart(t, groups, i, j);
    CleanPair(groups, i, j);
    CleanPair(groups, j, i);
    SameMarkers(t, groups[j]);
    assert Middle(Empty(groups[j])) + "\n" == "\n\n\n";
    NoLineIn("\n\n\n", groups[i].begin);
    hide Region, RenderOne, Contains, OneLine, Clean, Regions;
    Commute(t, groups[i], Empty(groups[j]));
  }

  /** Emptying the regions from `j` on forgets that region `i` among them was rewritten. */
  lemma {:induction false} OutlineForgets(t: string, n: string, groups: seq<Group>, i: nat, j: nat)
    requires Regions(t, groups) && Regions(n, groups) && Clean(groups) && j <= i < |groups| && RenderOne(t, groups[i]) == Some(n)
    ensures |Emptied(groups)| == |groups| && RenderFrom(n, Emptied(groups), j) == RenderFrom(t, Emptied(groups), j)
    decreases i - j
  {
    var empty := Emptied(groups);
    hide *;
    EmptiedAt(groups, j);
    CleanEmptied(groups);
    RegionsEmptied(t, groups);
    RegionsEmptied(n, groups);
    var t2 := StepKeeps(t, empty, j);
    var n2 := StepKeeps(n, empty, j);
    RenderUnfold(t, t2, empty, j);
    RenderUnfold(n, n2, empty, j);
    if i == j {
      CleanPair(groups, i, i);
      var p, q := PlaceOf(t, groups, i);
      Overwritten(t, groups[i], n, p, q);
    } else {
      CommuteEmpty(t, groups, i, j);
      RegionsEmptied(t2, groups);
      RegionsEmptied(n2, groups);
      OutlineForgets(t2, n2, groups, i, j + 1);
    }
  }

  /** Rewriting changes nothing outside the regions. */
  lemma {:induction false} OutlineKept(t: string, groups: seq<Group>, i: nat, n: string)
    requires Regions(t, groups) && Clean(groups) && i <= |groups| && RenderFrom(t, groups, i) == Some(n)
    ensures Outline(n, groups) == Outline(t, groups)
    decreases |groups| - i
  {
    hide Regions, Clean, RenderFrom, RenderOne, Emptied;
    if i == |groups| {
      RenderNone(t, groups);
    } else {
      var next := StepKeeps(t, groups, i);
      RenderUnfold(t, next, groups, i);
      OutlineForgets(t, next, groups, i, 0);
      OutlineKept(next, groups, i + 1, n);
    }
  }
}
