/**
 * The incremental cache ledger: per-region meta data (`MetaRegion`) and the
 * cache that decides which regions are stale (`RegionCachedMetaData`).
 * A region is stale when its file was modified after the time last
 * recorded for it; it then gets the maximum time-to-live, which every later
 * pass without a change counts down to zero.
 */
module Ledger {
  import opened Wrappers
  import opened JavaInts
  import opened Geometry
  import Decimal

  const MAX_TTL: Int32 := 15

  // ---------------------------------------------------------------------
  // What the ledger records for one region

  /** The time-to-live and the last-modified time recorded for a region. */
  datatype Entry = Entry(ttl: Int32, touched: Int64)

  /** What a new `MetaRegion` holds: Java's default zeros. */
  const FRESH: Entry := Entry(0, 0)

  /** `decTtl()`: one step down, never below zero. */
  function Decayed(ttl: Int32): (r: Int32)
    ensures 0 <= ttl ==> 0 <= r <= ttl && (r < ttl <==> ttl > 0)
    ensures ttl <= 0 ==> r == ttl
  {
    if ttl > 0 then ttl - 1 else ttl
  }

  /**
   * One region's record after `update` sees its modified time: a later
   * time is recorded and restarts the time-to-live at its maximum;
   * otherwise the time-to-live decays.
   */
  function Refreshed(e: Entry, modified: Int64): (r: Entry)
    ensures r.touched >= modified && r.touched >= e.touched
    ensures modified > e.touched ==> r == Entry(MAX_TTL, modified)
    ensures modified <= e.touched ==> r == Entry(Decayed(e.ttl), e.touched)
  {
    if modified > e.touched then Entry(MAX_TTL, modified) else Entry(Decayed(e.ttl), e.touched)
  }

  /** The record for `c`, or a fresh one. */
  function Before(ledger: map<Coord, Entry>, c: Coord): Entry
  {
    if c in ledger then ledger[c] else FRESH
  }

  /** The ledger after `update` with the given modified times of the loaded regions. */
  function Updated(ledger: map<Coord, Entry>, modified: map<Coord, Int64>): (r: map<Coord, Entry>)
    ensures r.Keys == ledger.Keys + modified.Keys
    ensures forall c :: c in modified ==> r[c] == Refreshed(Before(ledger, c), modified[c])
    ensures forall c :: c in ledger && c !in modified ==> r[c] == ledger[c]
  {
    map c | c in ledger.Keys + modified.Keys :: if c in modified then Refreshed(Before(ledger, c), modified[c]) else ledger[c]
  }

  /** The regions `update` marks stale: those modified after their recorded time. */
  function StaleOf(ledger: map<Coord, Entry>, modified: map<Coord, Int64>): (r: set<Coord>)
    ensures r <= modified.Keys
    ensures forall c :: c in modified ==> (c in r <==> modified[c] > Before(ledger, c).touched)
  {
    set c | c in modified && modified[c] > Before(ledger, c).touched
  }

  /** Every time-to-live lies between zero and the maximum. */
  predicate TtlsInRange(ledger: map<Coord, Entry>)
  {
    forall c :: c in ledger ==> 0 <= ledger[c].ttl <= MAX_TTL
  }

  /** `update` keeps every time-to-live between zero and the maximum. */
  lemma UpdateKeepsTtlsInRange(ledger: map<Coord, Entry>, modified: map<Coord, Int64>)
    requires TtlsInRange(ledger)
    ensures TtlsInRange(Updated(ledger, modified))
  {
    var r := Updated(ledger, modified);
    forall c | c in r
      ensures 0 <= r[c].ttl <= MAX_TTL
    {
      if c in modified {
        var e := Before(ledger, c);
        assert 0 <= e.ttl <= MAX_TTL;
        assert r[c] == Refreshed(e, modified[c]);
      }
    }
  }

  /** A second `update` with the same modified times finds nothing stale. */
  lemma UpdateAgainNothingStale(ledger: map<Coord, Entry>, modified: map<Coord, Int64>)
    ensures StaleOf(Updated(ledger, modified), modified) == {}
  {
    var r := Updated(ledger, modified);
    forall c | c in modified
      ensures modified[c] <= Before(r, c).touched
    {
      assert Before(r, c) == r[c] == Refreshed(Before(ledger, c), modified[c]);
    }
  }

  /** A stale region has the maximum time-to-live and the new time; any other loaded region keeps its time. */
  lemma StaleRestarted(ledger: map<Coord, Entry>, modified: map<Coord, Int64>, c: Coord)
    requires c in modified
    ensures c in StaleOf(ledger, modified) ==> Updated(ledger, modified)[c] == Entry(MAX_TTL, modified[c])
    ensures c !in StaleOf(ledger, modified) ==>
      Updated(ledger, modified)[c].touched == Before(ledger, c).touched &&
      Updated(ledger, modified)[c].ttl == Decayed(Before(ledger, c).ttl)
  {
  }

  /** The modified times of the regions in `keys`. */
  function Restrict(modified: map<Coord, Int64>, keys: set<Coord>): (r: map<Coord, Int64>)
    ensures r.Keys == modified.Keys * keys
  {
    map c | c in modified && c in keys :: modified[c]
  }

  /** `update` one region at a time: region `c` refreshes its own record and adds to the stale set when modified. */
  lemma UpdatedStep(ledger: map<Coord, Entry>, modified: map<Coord, Int64>, done: set<Coord>, c: Coord)
    requires c in modified && c !in done
    ensures Before(Updated(ledger, Restrict(modified, done)), c) == Before(ledger, c)
    ensures Updated(ledger, Restrict(modified, done + {c})) ==
      Updated(ledger, Restrict(modified, done))[c := Refreshed(Before(ledger, c), modified[c])]
    ensures StaleOf(ledger, Restrict(modified, done + {c})) ==
      StaleOf(ledger, Restrict(modified, done)) + (if modified[c] > Before(ledger, c).touched then {c} else {})
  {
    var m0, m1 := Restrict(modified, done), Restrict(modified, done + {c});
    assert m1 == m0[c := modified[c]];
    var u0, u1 := Updated(ledger, m0), Updated(ledger, m1);
    var e := Refreshed(Before(ledger, c), modified[c]);
    assert u1 == u0[c := e] by {
      assert u1.Keys == u0[c := e].Keys;
      forall k | k in u1
        ensures u1[k] == u0[c := e][k]
      {
        if k != c && k in m0 {
          assert u1[k] == Refreshed(Before(ledger, k), m1[k]);
        }
      }
    }
  }

  /** The step of `UpdatedStep` read on a ledger and stale set that have just taken it. */
  lemma UpdateStepOf(before: map<Coord, Entry>, modified: map<Coord, Int64>, done: set<Coord>, c: Coord,
                     u0: map<Coord, Entry>, u1: map<Coord, Entry>, p0: set<Coord>, p1: set<Coord>, stale: bool)
    requires c in modified && c !in done
    requires u0 == Updated(before, Restrict(modified, done)) && p0 == StaleOf(before, Restrict(modified, done))
    requires u1 == u0[c := Refreshed(Before(u0, c), modified[c])]
    requires stale <==> modified[c] > Before(u0, c).touched
    requires p1 == if stale then p0 + {c} else p0
    ensures u1 == Updated(before, Restrict(modified, done + {c}))
    ensures p1 == StaleOf(before, Restrict(modified, done + {c}))
  {
    UpdatedStep(before, modified, done, c);
  }

  // ---------------------------------------------------------------------
  // Record lines

  /** `String.format("%s %d %d", coord, ttl, touched)`. */
  function RecordText(c: Coord, ttl: int, touched: int): string
  {
    ToString(c) + " " + Decimal.IntToString(ttl) + " " + Decimal.IntToString(touched)
  }

  /** A character of the regular-expression class `\s`. */
  predicate IsSpace(ch: char)
  {
    ch == ' ' || ch == '\t' || ch == '\n' || ch == 11 as char || ch == 12 as char || ch == '\r'
  }

  /** The end of the run of whitespace starting at `i`. */
  function SpaceSpan(s: string, i: nat): (r: nat)
    requires i <= |s|
    ensures i <= r <= |s| && (r == |s| || !IsSpace(s[r]))
    ensures forall k :: i <= k < r ==> IsSpace(s[k])
    decreases |s| - i
  {
    if i < |s| && IsSpace(s[i]) then SpaceSpan(s, i + 1) else i
  }

  /** The end of the run of digits starting at `i`. */
  function DigitSpan(s: string, i: nat): (r: nat)
    requires i <= |s|
    ensures i <= r <= |s| && (r == |s| || !Decimal.IsDigit(s[r]))
    ensures forall k :: i <= k < r ==> Decimal.IsDigit(s[k])
    decreases |s| - i
  {
    if i < |s| && Decimal.IsDigit(s[i]) then DigitSpan(s, i + 1) else i
  }

  /** The regular expression `\[-?\d+,-?\d+\]`. */
  predicate CoordPattern(g: string)
  {
    |g| >= 2 && g[0] == '[' && g[|g| - 1] == ']' &&
    var body := g[1..|g| - 1];
    var k := Decimal.IndexOf(body, ',');
    k < |body| && Decimal.SignedDigits(body[..k]) && Decimal.SignedDigits(body[k + 1..])
  }

  /** The two groups of `\s+(\d+)\s+(\d+)` when the whole of `rest` matches it. */
  function TailGroups(rest: string): Option<(string, string)>
  {
    var a := SpaceSpan(rest, 0);
    var b := DigitSpan(rest, a);
    var c := SpaceSpan(rest, b);
    var d := DigitSpan(rest, c);
    if a == 0 || b == a || c == b || d == c || d != |rest| then None
    else Some((rest[a..b], rest[c..d]))
  }

  /**
   * The three groups of `^(\[-?\d+,-?\d+\])\s+(\d+)\s+(\d+)` when the whole
   * line matches it. The bracketed group can hold no `]` but its last, and
   * whitespace and digits never overlap, so the match is the one below.
   */
  function RecordGroups(s: string): Option<(string, string, string)>
  {
    var k := Decimal.IndexOf(s, ']');
    if k == |s| || !CoordPattern(s[..k + 1]) then None
    else
      match TailGroups(s[k + 1..])
      case None => None
      case Some(tail) => Some((s[..k + 1], tail.0, tail.1))
  }

  /** The values of a record line. */
  datatype Record = Record(coord: Coord, ttl: Int32, touched: Int64)

  /**
   * `metaRegion(s)`: no record unless the whole line matches; a matching
   * line whose numbers do not fit their Java types raises
   * NumberFormatException, coordinate first, then ttl, then touched.
   */
  function ParseRecord(s: string): (r: Result<Option<Record>>)
    ensures RecordGroups(s).None? ==> r == Success(None)
  {
    match RecordGroups(s)
    case None => Success(None)
    case Some(groups) =>
      var c := CoordOf(groups.0);
      if c.Failure? then Failure(c.error)
      else
        var ttl := Decimal.ParseInt(groups.1);
        if ttl.Failure? then Failure(ttl.error)
        else
          var touched := Decimal.ParseLong(groups.2);
          if touched.Failure? then Failure(touched.error)
          else Success(Some(Record(c.value, ttl.value, touched.value)))
  }

  lemma NatTextDigits(n: int)
    requires n >= 0
    ensures |Decimal.IntToString(n)| > 0 && Decimal.AllDigits(Decimal.IntToString(n))
  {
    Decimal.NatToStringDigits(n);
  }

  /** The text of a coordinate matches the bracketed group and ends at its first `]`. */
  lemma CoordTextMatches(c: Coord)
    ensures CoordPattern(ToString(c)) && Decimal.IndexOf(ToString(c), ']') == |ToString(c)| - 1
  {
    Decimal.IntToStringWithout(c.x, ',');
    Decimal.SignedDigitsOfInt(c.x);
    Decimal.IntToStringWithout(c.x, ']');
    Decimal.SignedDigitsOfInt(c.z);
    Decimal.IntToStringWithout(c.z, ']');
    PairTextMatches(Decimal.IntToString(c.x), Decimal.IntToString(c.z));
  }

  /** `[xs,zs]`, for digit texts without commas or brackets in `xs` and brackets in `zs`, matches the group. */
  lemma PairTextMatches(xs: string, zs: string)
    requires Decimal.SignedDigits(xs) && Decimal.SignedDigits(zs)
    requires forall i :: 0 <= i < |xs| ==> xs[i] != ',' && xs[i] != ']'
    requires forall i :: 0 <= i < |zs| ==> zs[i] != ']'
    ensures var g := "[" + xs + "," + zs + "]";
      CoordPattern(g) && Decimal.IndexOf(g, ']') == |g| - 1
  {
    var g := "[" + xs + "," + zs + "]";
    var body := g[1..|g| - 1];
    assert body == xs + "," + zs;
    assert body[|xs|] == ',';
    assert Decimal.IndexOf(body, ',') == |xs|;
    assert body[..|xs|] == xs;
    assert body[|xs| + 1..] == zs;
    assert forall i :: 0 <= i < |g| - 1 ==> g[i] != ']' by {
      forall i | 0 <= i < |g| - 1
        ensures g[i] != ']'
      {
        if 1 <= i <= |xs| {
          assert g[i] == xs[i - 1];
        } else if |xs| + 2 <= i < |g| - 1 {
          assert g[i] == zs[i - |xs| - 2];
        }
      }
    }
  }

  /** A run of digits `t` at `i`, followed by a non-digit or the end. */
  lemma DigitSpanOf(s: string, i: nat, t: string)
    requires i + |t| <= |s| && s[i..i + |t|] == t && Decimal.AllDigits(t)
    requires i + |t| == |s| || !Decimal.IsDigit(s[i + |t|])
    ensures DigitSpan(s, i) == i + |t|
  {
    var r := DigitSpan(s, i);
    assert forall k :: i <= k < i + |t| ==> s[k] == t[k - i];
  }

  /** One space at `i`, followed by a non-space. */
  lemma SpaceSpanOne(s: string, i: nat)
    requires i + 1 < |s| && s[i] == ' ' && !IsSpace(s[i + 1])
    ensures SpaceSpan(s, i) == i + 1
  {
  }

  /** The tail ` ttl touched` with two runs of digits splits into them. */
  lemma TailOfDigits(ts: string, us: string)
    requires |ts| > 0 && Decimal.AllDigits(ts) && |us| > 0 && Decimal.AllDigits(us)
    ensures TailGroups(" " + ts + " " + us) == Some((ts, us))
  {
    var rest := " " + ts + " " + us;
    assert rest[1..1 + |ts|] == ts;
    assert rest[2 + |ts|..|rest|] == us;
    SpaceSpanOne(rest, 0);
    DigitSpanOf(rest, 1, ts);
    SpaceSpanOne(rest, 1 + |ts|);
    DigitSpanOf(rest, 2 + |ts|, us);
  }

  /** A minus sign where a group of digits should start: the tail does not match. */
  lemma TailWithSign(ts: string, us: string)
    requires |ts| > 0 && |us| > 0
    requires ts[0] == '-' || (Decimal.AllDigits(ts) && us[0] == '-')
    ensures TailGroups(" " + ts + " " + us) == None
  {
    var rest := " " + ts + " " + us;
    SpaceSpanOne(rest, 0);
    if ts[0] != '-' {
      assert rest[1..1 + |ts|] == ts;
      DigitSpanOf(rest, 1, ts);
      SpaceSpanOne(rest, 1 + |ts|);
    }
  }

  /** A record line splits at the end of its coordinate text. */
  lemma RecordSplits(c: Coord, rest: string)
    ensures RecordGroups(ToString(c) + rest) ==
      match TailGroups(rest)
      case None => None
      case Some(tail) => Some((ToString(c), tail.0, tail.1))
  {
    var g := ToString(c);
    var s := g + rest;
    CoordTextMatches(c);
    assert Decimal.IndexOf(s, ']') == |g| - 1 by {
      assert forall i :: 0 <= i < |g| ==> s[i] == g[i];
    }
    assert s[..|g|] == g;
    assert s[|g|..] == rest;
  }

  /**
   * Reading back a record line: with a non-negative ttl and touched time
   * the record's values come back; a negative one makes the line fail to
   * match, so no record is read.
   */
  lemma ParseRecordText(c: Coord, ttl: Int32, touched: Int64)
    ensures ttl >= 0 && touched >= 0 ==> ParseRecord(RecordText(c, ttl, touched)) == Success(Some(Record(c, ttl, touched)))
    ensures ttl < 0 || touched < 0 ==> ParseRecord(RecordText(c, ttl, touched)) == Success(None)
  {
    if ttl >= 0 && touched >= 0 {
      ParseRecordTextValid(c, ttl, touched);
    } else {
      ParseRecordTextNegative(c, ttl, touched);
    }
  }

  lemma ParseRecordTextValid(c: Coord, ttl: Int32, touched: Int64)
    requires ttl >= 0 && touched >= 0
    ensures ParseRecord(RecordText(c, ttl, touched)) == Success(Some(Record(c, ttl, touched)))
  {
    var ts, us := Decimal.IntToString(ttl), Decimal.IntToString(touched);
    var rest := " " + ts + " " + us;
    assert RecordText(c, ttl, touched) == ToString(c) + rest;
    RecordSplits(c, rest);
    NatTextDigits(ttl);
    NatTextDigits(touched);
    TailOfDigits(ts, us);
    CoordOfToString(c);
    Decimal.ParseIntToString(ttl);
    Decimal.ParseLongToString(touched);
  }

  lemma ParseRecordTextNegative(c: Coord, ttl: Int32, touched: Int64)
    requires ttl < 0 || touched < 0
    ensures ParseRecord(RecordText(c, ttl, touched)) == Success(None)
  {
    var ts, us := Decimal.IntToString(ttl), Decimal.IntToString(touched);
    var rest := " " + ts + " " + us;
    assert RecordText(c, ttl, touched) == ToString(c) + rest;
    RecordSplits(c, rest);
    Decimal.SignedDigitsOfInt(ttl);
    Decimal.IntToStringWithout(ttl, ']');
    Decimal.SignedDigitsOfInt(touched);
    Decimal.IntToStringWithout(touched, ']');
    if ttl >= 0 {
      NatTextDigits(ttl);
    }
    TailWithSign(ts, us);
  }

  // ---------------------------------------------------------------------
  // MetaRegion

  /** `MetaRegion`: a region's coordinate, its time-to-live and its last-modified time. */
  class MetaRegion {
    const coord: Coord
    var ttl: Int32
    var touched: Int64

    /** `new MetaRegion(coord)`: ttl and touched start at zero. */
    constructor (coord: Coord)
      ensures this.coord == coord && Entry(ttl, touched) == FRESH
    {
      this.coord := coord;
      ttl := 0;
      touched := 0;
    }

    /** `setTouched(t)`: set the time, return this object for chaining. */
    method SetTouched(t: Int64) returns (self: MetaRegion)
      modifies this
      ensures self == this && touched == t && ttl == old(ttl)
    {
      touched := t;
      return this;
    }

    /** `setTtl(t)`: set the time-to-live, return this object for chaining. */
    method SetTtl(t: Int32) returns (self: MetaRegion)
      modifies this
      ensures self == this && ttl == t && touched == old(touched)
    {
      ttl := t;
      return this;
    }

    /** `decTtl()`: count the time-to-live down, stopping at zero. */
    method DecTtl()
      modifies this
      ensures ttl == Decayed(old(ttl)) && touched == old(touched)
    {
      if ttl > 0 {
        ttl := ttl - 1;
      }
    }

    /** `stringRecord()`: the line `[x,z] ttl touched`. */
    function StringRecord(): (line: string)
      reads this
      ensures ttl >= 0 && touched >= 0 ==> ParseRecord(line) == Success(Some(Record(coord, ttl, touched)))
    {
      ParseRecordText(coord, ttl, touched);
      RecordText(coord, ttl, touched)
    }
  }

  /**
   * `metaRegion(s)`: a new meta region with the values of a matching
   * line, null for a line that does not match, NumberFormatException for
   * numbers out of range.
   */
  method MetaRegionOf(s: string) returns (r: Result<MetaRegion?>)
    ensures ParseRecord(s).Failure? <==> r.Failure?
    ensures r.Failure? ==> r.error == ParseRecord(s).error
    ensures r.Success? ==> (r.value == null <==> ParseRecord(s).value.None?)
    ensures r.Success? && r.value != null ==>
      fresh(r.value) && Record(r.value.coord, r.value.ttl, r.value.touched) == ParseRecord(s).value.value
  {
    var p := ParseRecord(s);
    if p.Failure? {
      return Failure(p.error);
    }
    if p.value.None? {
      return Success(null);
    }
    var rec := p.value.value;
    var mr := new MetaRegion(rec.coord);
    mr := mr.SetTtl(rec.ttl);
    mr := mr.SetTouched(rec.touched);
    return Success(mr);
  }

  /** The coordinates of some meta regions. */
  ghost function CoordsOf(regions: set<MetaRegion>): set<Coord>
  {
    set mr | mr in regions :: mr.coord
  }

  lemma CoordsOfAdd(regions: set<MetaRegion>, mr: MetaRegion)
    ensures CoordsOf(regions + {mr}) == CoordsOf(regions) + {mr.coord}
  {
  }

  /** The body of `update`'s loop for a region modified at `t`: a later time restarts the time-to-live, otherwise it decays. */
  method Refresh(mr: MetaRegion, t: Int64) returns (stale: bool)
    modifies mr
    ensures Entry(mr.ttl, mr.touched) == Refreshed(old(Entry(mr.ttl, mr.touched)), t)
    ensures stale <==> t > old(mr.touched)
  {
    if t > mr.touched {
      var self := mr.SetTouched(t);
      self := mr.SetTtl(MAX_TTL);
      stale := true;
    } else {
      mr.DecTtl();
      stale := false;
    }
  }

  // ---------------------------------------------------------------------
  // RegionCachedMetaData

  /** Storing `v` under a key adds at most `v` to a map's values. */
  lemma ValuesUpdate<K, V>(m: map<K, V>, k: K, v: V)
    ensures m[k := v].Values <= m.Values + {v}
  {
    forall w | w in m[k := v].Values
      ensures w in m.Values + {v}
    {
      var j :| j in m[k := v] && m[k := v][j] == w;
      if j != k {
        assert m[j] == w;
      }
    }
  }

  /**
   * `RegionCachedMetaData`: the meta regions by coordinate, the regions
   * the last `update` found stale (null before any update), and the quad
   * shift last stored (null until one is).
   */
  class RegionCachedMetaData {
    var metaMap: map<Coord, MetaRegion>
    var toProcess: Option<set<MetaRegion>>
    var quadShift: Option<Coord>

    /** Each meta region is filed under its own coordinate; the stale ones are in the map. */
    ghost predicate Valid()
      reads this`metaMap, this`toProcess
    {
      (forall c :: c in metaMap ==> metaMap[c].coord == c) &&
      (toProcess.Some? ==> toProcess.value <= metaMap.Values)
    }

    /** The ledger's records, as values. */
    ghost function Entries(): (r: map<Coord, Entry>)
      reads this`metaMap, metaMap.Values`ttl, metaMap.Values`touched
      ensures r.Keys == metaMap.Keys
    {
      map c | c in metaMap :: Entry(metaMap[c].ttl, metaMap[c].touched)
    }

    /** The coordinates of the stale meta regions. */
    ghost function ProcessedCoords(): set<Coord>
      requires toProcess.Some?
      reads this`toProcess
    {
      CoordsOf(toProcess.value)
    }

    /** The ledger of a cache file that does not exist yet: no records, nothing stale, no quad shift. */
    constructor Empty()
      ensures Valid() && metaMap == map[] && toProcess.None? && quadShift.None?
    {
      metaMap := map[];
      toProcess := None;
      quadShift := None;
    }

    /** `size()`: the number of meta regions. */
    function Size(): (n: nat)
      reads this
      ensures n == |Entries().Keys|
    {
      |metaMap|
    }

    /** `metaMap.get(c)`, or a new meta region for `c` put in the map when there is none. */
    method Lookup(c: Coord) returns (mr: MetaRegion)
      requires Valid()
      modifies this`metaMap
      ensures Valid() && metaMap == old(metaMap)[c := mr] && mr.coord == c
      ensures c in old(metaMap) ==> mr == old(metaMap[c])
      ensures c !in old(metaMap) ==> fresh(mr)
      ensures Entries() == old(Entries())[c := old(Before(Entries(), c))]
    {
      if c in metaMap {
        mr := metaMap[c];
        assert metaMap == old(metaMap)[c := mr];
      } else {
        mr := new MetaRegion(c);
        metaMap := metaMap[c := mr];
        assert old(metaMap).Values <= metaMap.Values by {
          forall v | v in old(metaMap).Values
            ensures v in metaMap.Values
          {
            var k :| k in old(metaMap) && old(metaMap)[k] == v;
            assert metaMap[k] == v;
          }
        }
      }
    }

    /** The record of `c` after `update` has seen modified time `t`; a new meta region when `c` has none. */
    method Touch(c: Coord, t: Int64) returns (mr: MetaRegion, stale: bool)
      requires Valid()
      modifies this`metaMap, if c in metaMap then {metaMap[c]} else {}
      ensures Valid() && c in metaMap && metaMap[c] == mr && mr.coord == c
      ensures forall v :: v in metaMap.Values ==> v in old(metaMap.Values) || fresh(v)
      ensures Entries() == old(Entries())[c := Refreshed(old(Before(Entries(), c)), t)]
      ensures stale <==> t > old(Before(Entries(), c)).touched
    {
      mr := Lookup(c);
      ValuesUpdate(old(metaMap), c, mr);
      stale := RefreshAt(c, mr, t);
    }

    /** Refreshing the meta region filed under `c` changes the record of `c` and no other. */
    method RefreshAt(c: Coord, mr: MetaRegion, t: Int64) returns (stale: bool)
      requires Valid() && c in metaMap && metaMap[c] == mr
      modifies mr
      ensures Entries() == old(Entries())[c := Refreshed(old(Entries())[c], t)]
      ensures stale <==> t > old(mr.touched)
    {
      ghost var e1 := Entries();
      stale := Refresh(mr, t);
      ghost var e2 := e1[c := Entry(mr.ttl, mr.touched)];
      forall k | k in metaMap
        ensures Entries()[k] == e2[k]
      {
        if k != c {
          assert metaMap[k].coord == k;
        }
      }
      assert Entries() == e2;
    }

    /** One turn of `update`'s loop: region `c` is touched and, when stale, joins the stale set. */
    method UpdateOne(modified: map<Coord, Int64>, c: Coord, ghost before: map<Coord, Entry>, ghost done: set<Coord>)
      requires c in modified && c !in done
      requires Valid() && toProcess.Some?
      requires Entries() == Updated(before, Restrict(modified, done))
      requires ProcessedCoords() == StaleOf(before, Restrict(modified, done))
      modifies this, metaMap.Values
      ensures Valid() && toProcess.Some? && quadShift == old(quadShift)
      ensures forall v :: v in metaMap.Values ==> v in old(metaMap.Values) || fresh(v)
      ensures Entries() == Updated(before, Restrict(modified, done + {c}))
      ensures ProcessedCoords() == StaleOf(before, Restrict(modified, done + {c}))
    {
      ghost var u0, p0 := Entries(), ProcessedCoords();
      var mr, stale := Touch(c, modified[c]);
      if stale {
        CoordsOfAdd(toProcess.value, mr);
        toProcess := Some(toProcess.value + {mr});
      }
      UpdateStepOf(before, modified, done, c, u0, Entries(), p0, ProcessedCoords(), stale);
    }

    /**
     * `update(regionData)`: each loaded region, given here by its
     * modified time, gets a record if it had none and is then refreshed;
     * the regions modified after their recorded time become the stale set.
     */
    method Update(modified: map<Coord, Int64>)
      requires Valid()
      modifies this, metaMap.Values
      ensures Valid() && quadShift == old(quadShift)
      ensures Entries() == Updated(old(Entries()), modified)
      ensures toProcess.Some? && ProcessedCoords() == StaleOf(old(Entries()), modified)
    {
      ghost var before := Entries();
      toProcess := Some({});
      var todo := modified.Keys;
      ghost var done: set<Coord> := {};
      assert Updated(before, Restrict(modified, done)) == before;
      while todo != {}
        invariant todo <= modified.Keys && done == modified.Keys - todo
        invariant Valid() && quadShift == old(quadShift) && toProcess.Some?
        invariant forall v :: v in metaMap.Values ==> v in old(metaMap.Values) || fresh(v)
        invariant Entries() == Updated(before, Restrict(modified, done))
        invariant ProcessedCoords() == StaleOf(before, Restrict(modified, done))
        decreases todo
      {
        var c :| c in todo;
        UpdateOne(modified, c, before, done);
        todo := todo - {c};
        done := done + {c};
      }
      assert Restrict(modified, done) == modified;
    }

    /** `stale()`: the coordinates of the stale meta regions; before any update the null set is dereferenced. */
    method Stale() returns (r: Result<set<Coord>>)
      ensures toProcess.None? <==> r.Failure?
      ensures r.Failure? ==> r.error == NullPointer
      ensures r.Success? ==> r.value == ProcessedCoords()
    {
      if toProcess.None? {
        return Failure(NullPointer);
      }
      var todo := toProcess.value;
      var stale: set<Coord> := {};
      while todo != {}
        invariant todo <= toProcess.value
        invariant stale == set mr | mr in toProcess.value - todo :: mr.coord
        decreases todo
      {
        var mr :| mr in todo;
        stale := stale + {mr.coord};
        todo := todo - {mr};
      }
      assert toProcess.value - todo == toProcess.value;
      return Success(stale);
    }

    /** `updateQuadShift(calibration)`: whether the calibration differs from the stored one, which it then replaces. */
    method UpdateQuadShift(calibration: Coord) returns (changed: bool)
      modifies this
      ensures changed <==> old(quadShift) != Some(calibration)
      ensures quadShift == Some(calibration) && metaMap == old(metaMap) && toProcess == old(toProcess)
    {
      changed := quadShift != Some(calibration);
      quadShift := Some(calibration);
    }

    /** `regionTtlMap()`: each recorded coordinate with its time-to-live. */
    method RegionTtlMap() returns (m: map<Coord, Int32>)
      requires Valid()
      ensures m.Keys == Entries().Keys
      ensures forall c :: c in m ==> m[c] == Entries()[c].ttl
    {
      m := map[];
      var todo := metaMap.Values;
      while todo != {}
        invariant todo <= metaMap.Values
        invariant forall c :: c in m <==> c in metaMap && metaMap[c] !in todo
        invariant forall c :: c in m ==> m[c] == metaMap[c].ttl
        decreases todo
      {
        var mr :| mr in todo;
        m := m[mr.coord := mr.ttl];
        todo := todo - {mr};
      }
    }
  }
}
