/**
 * The house-number map of a Nominatim result as a value, and what each way
 * of filling it does to it: the collector that reads explicit house numbers
 * from strings and address tags, and the two interpolation styles that
 * expand a numeric range along a line. The methods of NominatimResult are
 * proved to update their map exactly as these functions say.
 */
module Housenumbers {
  import opened Wrappers
  import opened JavaStrings
  import opened Photon

  /**
   * A key the map may hold: non-empty, starting and ending with a character
   * that trim keeps, and free of the ';' separator.
   */
  predicate IsHousenumberKey(k: string) {
    k != [] && !IsTrimmable(k[0]) && !IsTrimmable(k[|k| - 1]) && ';' !in k
  }

  /** The keys are exactly the non-empty strings that trim leaves as they are and that hold no ';'. */
  lemma HousenumberKeyIsTrimmed(k: string)
    ensures IsHousenumberKey(k) <==> k != [] && Trim(k) == k && ';' !in k
  {
    if IsHousenumberKey(k) {
      TrimKeepsEnds(k);
    }
  }

  ghost predicate ValidKeys(m: map<string, Point>) {
    forall k :: k in m ==> IsHousenumberKey(k)
  }

  /** The map that sends every key of `keys` to the point c. */
  function AllAt(keys: set<string>, c: Point): (m: map<string, Point>)
    ensures m.Keys == keys
    ensures forall k :: k in m ==> m[k] == c
  {
    map k | k in keys :: c
  }

  // ---------------------------------------------------------------------
  // Collector: explicit house numbers

  /** The non-empty trimmed fields among `parts`. */
  function SegmentsOf(parts: seq<string>): set<string> {
    set p | p in parts && Trim(p) != [] :: Trim(p)
  }

  /** The house numbers a ';'-separated string names. */
  function HousenumbersIn(str: string): (keys: set<string>)
    ensures forall k :: k in keys ==> IsHousenumberKey(k)
  {
    var parts := Split(str, ';');
    assert forall p :: p in parts ==> ';' !in p && ';' !in Trim(p);
    SegmentsOf(parts)
  }

  /** The house numbers of a string that may be absent. */
  function FieldHousenumbers(str: Option<string>): set<string> {
    if str.None? then {} else HousenumbersIn(str.value)
  }

  /**
   * addHousenumbersFromString on the map m, with c the centroid of the base
   * document: an absent or empty string leaves m as it is; otherwise each
   * house number of the string is (re)mapped to c and every other entry is kept.
   */
  function AddFromString(m: map<string, Point>, str: Option<string>, c: Point): (r: map<string, Point>)
    ensures r.Keys == m.Keys + FieldHousenumbers(str)
    ensures forall k :: k in FieldHousenumbers(str) ==> r[k] == c
    ensures forall k :: k in m && k !in FieldHousenumbers(str) ==> r[k] == m[k]
  {
    if str.None? || str.value == "" then
      assert str.Some? ==> Split(str.value, ';') == [[]];
      m
    else
      m + AllAt(HousenumbersIn(str.value), c)
  }

  /** One more field read by the collector loop: its trimmed value, if any, is mapped to c. */
  lemma SegmentsOfSnoc(m: map<string, Point>, parts: seq<string>, i: int, c: Point)
    requires 0 <= i < |parts|
    ensures m + AllAt(SegmentsOf(parts[..i + 1]), c)
         == if Trim(parts[i]) != [] then (m + AllAt(SegmentsOf(parts[..i]), c))[Trim(parts[i]) := c]
            else m + AllAt(SegmentsOf(parts[..i]), c)
  {
    assert parts[..i + 1] == parts[..i] + [parts[i]];
    var h := Trim(parts[i]);
    SegmentsOfAppend(parts[..i], parts[i]);
    if h != [] {
      AllAtInsert(m, SegmentsOf(parts[..i]), h, c);
    } else {
      assert SegmentsOf(parts[..i + 1]) == SegmentsOf(parts[..i]);
    }
  }

  /**
   * One turn of the collector loop: with m equal to m0 plus the house numbers
   * of the fields read so far, recording field i (if it is not blank) gives
   * m0 plus the house numbers of one more field.
   */
  lemma CollectStep(m0: map<string, Point>, m: map<string, Point>, parts: seq<string>, i: int, c: Point)
    requires 0 <= i < |parts|
    requires m == m0 + AllAt(SegmentsOf(parts[..i]), c)
    ensures Trim(parts[i]) != [] ==> m[Trim(parts[i]) := c] == m0 + AllAt(SegmentsOf(parts[..i + 1]), c)
    ensures Trim(parts[i]) == [] ==> m == m0 + AllAt(SegmentsOf(parts[..i + 1]), c)
  {
    SegmentsOfSnoc(m0, parts, i, c);
  }

  lemma SegmentsOfAppend(parts: seq<string>, p: string)
    ensures SegmentsOf(parts + [p]) == SegmentsOf(parts) + (if Trim(p) != [] then {Trim(p)} else {})
  {
    var ps := parts + [p];
    forall q | q in ps ensures q in parts || q == p {
    }
    forall q | q in parts ensures q in ps {
    }
  }

  lemma AllAtInsert(m: map<string, Point>, keys: set<string>, h: string, c: Point)
    ensures m + AllAt(keys + {h}, c) == (m + AllAt(keys, c))[h := c]
  {
    var r := m + AllAt(keys + {h}, c);
    var expected := (m + AllAt(keys, c))[h := c];
    assert r.Keys == expected.Keys;
    forall k | k in r ensures r[k] == expected[k] {
    }
  }

  lemma AddFromStringOfFields(m: map<string, Point>, str: string, c: Point)
    requires str != ""
    ensures AddFromString(m, Some(str), c) == m + AllAt(SegmentsOf(Split(str, ';')), c)
  {
  }

  /** The start of the collector loop: no field read yet, nothing added. */
  lemma CollectStart(m0: map<string, Point>, parts: seq<string>, c: Point)
    ensures m0 == m0 + AllAt(SegmentsOf(parts[..0]), c)
  {
    assert SegmentsOf(parts[..0]) == {};
    AllAtNone(m0, c);
  }

  /** The end of the collector loop: once every field is read, the map is the collector's result. */
  lemma CollectDone(m0: map<string, Point>, m: map<string, Point>, str: string, i: int, c: Point)
    requires str != "" && ValidKeys(m0) && i == |Split(str, ';')|
    requires m == m0 + AllAt(SegmentsOf(Split(str, ';')[..i]), c)
    ensures m == AddFromString(m0, Some(str), c)
    ensures ValidKeys(m)
  {
    assert Split(str, ';')[..i] == Split(str, ';');
    AddFromStringOfFields(m0, str, c);
    AddFromStringKeysValid(m0, Some(str), c);
  }

  /** An absent or empty string adds nothing. */
  lemma AddFromStringAbsent(m: map<string, Point>, str: Option<string>, c: Point)
    requires str.None? || str.value == ""
    ensures AddFromString(m, str, c) == m
  {
  }

  lemma AllAtNone(m: map<string, Point>, c: Point)
    ensures m + AllAt({}, c) == m
  {
  }

  /** The collector keeps every key a proper house number. */
  lemma AddFromStringKeysValid(m: map<string, Point>, str: Option<string>, c: Point)
    requires ValidKeys(m)
    ensures ValidKeys(AddFromString(m, str, c))
  {
  }

  /** The value of a tag, absent when the tag is not there. */
  function Lookup(address: map<string, string>, key: string): (r: Option<string>)
    ensures r.Some? <==> key in address
    ensures r.Some? ==> r.value == address[key]
  {
    if key in address then Some(address[key]) else None
  }

  /** addHousenumbersFromAddress: the collector run on the three house-number tags in turn. */
  function AddFromAddress(m: map<string, Point>, address: Option<map<string, string>>, c: Point): (r: map<string, Point>)
    ensures address.None? ==> r == m
    ensures address.Some? ==> r.Keys == m.Keys + AddressHousenumbers(address.value)
    ensures address.Some? ==> forall k :: k in AddressHousenumbers(address.value) ==> r[k] == c
  {
    match address
    case None => m
    case Some(a) =>
      var h := FieldHousenumbers(Lookup(a, "housenumber"));
      var s := FieldHousenumbers(Lookup(a, "streetnumber"));
      AddFromStringAsUnion(m, Lookup(a, "housenumber"), c);
      AddFromStringAsUnion(m + AllAt(h, c), Lookup(a, "streetnumber"), c);
      AllAtCompose(m, h, s, c);
      AddFromStringAsUnion(m + AllAt(h + s, c), Lookup(a, "conscriptionnumber"), c);
      AllAtCompose(m, h + s, FieldHousenumbers(Lookup(a, "conscriptionnumber")), c);
      var afterHousenumber := AddFromString(m, Lookup(a, "housenumber"), c);
      var afterStreetnumber := AddFromString(afterHousenumber, Lookup(a, "streetnumber"), c);
      AddFromString(afterStreetnumber, Lookup(a, "conscriptionnumber"), c)
  }

  /** Every house number named by any of the three house-number tags. */
  function AddressHousenumbers(a: map<string, string>): set<string> {
    FieldHousenumbers(Lookup(a, "housenumber"))
      + FieldHousenumbers(Lookup(a, "streetnumber"))
      + FieldHousenumbers(Lookup(a, "conscriptionnumber"))
  }

  /**
   * The three tags are merged, not ranked: the result is the old map with
   * every house number of any tag mapped to c.
   */
  lemma AddressTagsMerge(m: map<string, Point>, a: map<string, string>, c: Point)
    ensures AddFromAddress(m, Some(a), c) == m + AllAt(AddressHousenumbers(a), c)
  {
    var h := FieldHousenumbers(Lookup(a, "housenumber"));
    var s := FieldHousenumbers(Lookup(a, "streetnumber"));
    var n := FieldHousenumbers(Lookup(a, "conscriptionnumber"));
    AddFromStringAsUnion(m, Lookup(a, "housenumber"), c);
    AddFromStringAsUnion(m + AllAt(h, c), Lookup(a, "streetnumber"), c);
    AllAtCompose(m, h, s, c);
    AddFromStringAsUnion(m + AllAt(h + s, c), Lookup(a, "conscriptionnumber"), c);
    AllAtCompose(m, h + s, n, c);
  }

  lemma AddFromStringAsUnion(m: map<string, Point>, str: Option<string>, c: Point)
    ensures AddFromString(m, str, c) == m + AllAt(FieldHousenumbers(str), c)
  {
    var r := AddFromString(m, str, c);
    var expected := m + AllAt(FieldHousenumbers(str), c);
    assert r.Keys == expected.Keys;
    forall k | k in r ensures r[k] == expected[k] {
    }
  }

  lemma AllAtCompose(m: map<string, Point>, a: set<string>, b: set<string>, c: Point)
    ensures m + AllAt(a, c) + AllAt(b, c) == m + AllAt(a + b, c)
  {
    var r := m + AllAt(a, c) + AllAt(b, c);
    var expected := m + AllAt(a + b, c);
    assert r.Keys == expected.Keys;
    forall k | k in r ensures r[k] == expected[k] {
    }
  }

  /**
   * Collecting a ';'-joined list of house numbers yields exactly those house
   * numbers: a key of the map, written out and read back, is itself.
   */
  lemma {:induction false} CollectJoined(keys: seq<string>)
    requires |keys| >= 1
    requires forall k :: k in keys ==> IsHousenumberKey(k)
    ensures HousenumbersIn(Join(keys, ';')) == set k | k in keys
  {
    SplitJoin(keys, ';');
    forall k | k in keys
      ensures Trim(k) == k
    {
      TrimKeepsEnds(k);
    }
  }

  // ---------------------------------------------------------------------
  // Arithmetic of the interpolation steps

  lemma MulAtLeast(step: int, k: int)
    requires step >= 1 && k >= 1
    ensures step * k >= step
  {
  }

  lemma DivModUnique(x: int, step: int, q: int, r: int)
    requires step >= 1 && 0 <= r < step && x == step * q + r
    ensures x % step == r
  {
    var q', r' := x / step, x % step;
    assert x == step * q' + r';
    if q > q' {
      MulAtLeast(step, q - q');
    } else if q < q' {
      MulAtLeast(step, q' - q);
    }
  }

  lemma ModOffset(a: int, b: int, step: int)
    requires step >= 1 && a % step == 0 && 0 <= b < step
    ensures (a + b) % step == b
  {
    assert a == step * (a / step);
    DivModUnique(a + b, step, a / step, b);
  }

  lemma ModShift(a: int, step: int)
    requires step >= 1
    ensures (a + step) % step == a % step
  {
    assert a == step * (a / step) + a % step;
    assert a + step == step * (a / step + 1) + a % step;
    DivModUnique(a + step, step, a / step + 1, a % step);
  }

  // ---------------------------------------------------------------------
  // Interpolation: which numbers, at which points

  /** Ranges that are empty or wider than this are ignored as mis-tagged. */
  const MaxInterpolationWidth := 1000

  /** The range check both interpolation styles make before adding anything. */
  predicate InRange(first: int, last: int) {
    first < last && last - first <= MaxInterpolationWidth
  }

  /** The numbers lo, lo + 1, ..., hi - 1. */
  function Interval(lo: int, hi: int): (ns: set<int>)
    ensures forall h :: h in ns <==> lo <= h < hi
    decreases hi - lo
  {
    if lo >= hi then {} else Interval(lo, hi - 1) + {hi - 1}
  }

  /** start, start + step, start + 2*step, ... below limit. */
  function Progression(start: int, step: int, limit: int): (ns: set<int>)
    requires step >= 1
    ensures forall h :: h in ns ==> start <= h < limit
    decreases limit - start
  {
    if start >= limit then {} else {start} + Progression(start + step, step, limit)
  }

  lemma ProgressionUnfold(start: int, step: int, limit: int)
    requires step >= 1 && start < limit
    ensures Progression(start, step, limit) == {start} + Progression(start + step, step, limit)
  {
  }

  lemma ProgressionEnd(start: int, step: int, limit: int)
    requires step >= 1 && start >= limit
    ensures Progression(start, step, limit) == {}
  {
  }

  /** The members of a progression are exactly the numbers below limit that are whole steps from start. */
  lemma {:induction false} ProgressionMembers(start: int, step: int, limit: int, h: int)
    requires step >= 1
    ensures h in Progression(start, step, limit) <==> start <= h < limit && (h - start) % step == 0
    decreases limit - start
  {
    if start < limit {
      ProgressionUnfold(start, step, limit);
      ProgressionMembers(start + step, step, limit, h);
      if h == start {
        assert (h - start) % step == 0;
      } else if start < h < start + step {
        ModOffset(0, h - start, step);
        assert h !in Progression(start + step, step, limit);
      } else if h >= start + step {
        ModShift(h - start - step, step);
        assert h in Progression(start, step, limit) <==> h in Progression(start + step, step, limit);
      }
    }
  }

  lemma ProgressionUnitStep(lo: int, hi: int)
    ensures Progression(lo, 1, hi) == Interval(lo, hi)
  {
    forall h ensures h in Progression(lo, 1, hi) <==> h in Interval(lo, hi) {
      ProgressionMembers(lo, 1, hi, h);
    }
  }

  /** The house-number strings of a set of numbers. */
  function NumberKeys(ns: set<int>): set<string> {
    set h | h in ns :: IntToString(h)
  }

  lemma IntToStringIsKey(n: int)
    ensures IsHousenumberKey(IntToString(n))
  {
    var s := IntToString(n);
    IntToStringChars(n);
    assert s[0] in s && s[|s| - 1] in s;
  }

  /** A range of n consecutive numbers has n distinct house-number strings. */
  lemma {:induction false} NumberKeysOfRange(lo: int, hi: int)
    requires lo <= hi
    ensures |NumberKeys(Interval(lo, hi))| == hi - lo
    decreases hi - lo
  {
    if lo < hi {
      var below := Interval(lo, hi - 1);
      NumberKeysOfRange(lo, hi - 1);
      assert Interval(lo, hi) == below + {hi - 1};
      assert NumberKeys(Interval(lo, hi)) == NumberKeys(below) + {IntToString(hi - 1)};
      if IntToString(hi - 1) in NumberKeys(below) {
        var h :| h in below && IntToString(h) == IntToString(hi - 1);
        IntToStringInjective(h, hi - 1);
      }
    } else {
      assert Interval(lo, hi) == {};
    }
  }

  /** Length-index distance between two consecutive numbers of the range. */
  function LStep(line: IndexedLine, first: int, last: int): (lstep: real)
    requires first < last
    ensures lstep * (last - first) as real == line.endIndex - line.startIndex
  {
    (line.endIndex - line.startIndex) / (last - first) as real
  }

  /** The point num steps along the line. */
  function PointAt(line: IndexedLine, lstep: real, num: int): (p: Point)
    ensures num == 0 ==> p == line.extractPoint(line.startIndex)
  {
    line.extractPoint(line.startIndex + lstep * num as real)
  }

  /**
   * The loop both interpolation styles run, from offset num on: while
   * num + first is below limit, the house number num + first is written at
   * its point num steps along the line, and num advances by step.
   */
  function InterpolateFrom(m: map<string, Point>, first: int, num: int, step: int, limit: int,
                           line: IndexedLine, lstep: real): (r: map<string, Point>)
    requires step >= 1
    ensures m.Keys <= r.Keys
    decreases limit - (num + first)
  {
    if num + first >= limit then m
    else InterpolateFrom(m[IntToString(num + first) := PointAt(line, lstep, num)], first, num + step, step, limit,
                         line, lstep)
  }

  /** One iteration of the loop: the entry for num + first, then the rest from num + step. */
  lemma InterpolateFromUnfold(m: map<string, Point>, first: int, num: int, step: int, limit: int,
                              line: IndexedLine, lstep: real)
    requires step >= 1 && num + first < limit
    ensures InterpolateFrom(m, first, num, step, limit, line, lstep)
         == InterpolateFrom(m[IntToString(num + first) := PointAt(line, lstep, num)], first, num + step, step, limit,
                            line, lstep)
  {
  }

  lemma ProgressionUnfoldAt(first: int, num: int, step: int, limit: int)
    requires step >= 1 && num + first < limit
    ensures Progression(num + first, step, limit) == {num + first} + Progression((num + step) + first, step, limit)
  {
    ProgressionUnfold(num + first, step, limit);
    assert num + first + step == (num + step) + first;
  }

  lemma NumberKeysInsert(x: int, ns: set<int>)
    ensures NumberKeys({x} + ns) == {IntToString(x)} + NumberKeys(ns)
  {
  }

  /** A number outside ns has a key that no number of ns has. */
  lemma NumberKeysMissing(x: int, ns: set<int>)
    requires x !in ns
    ensures IntToString(x) !in NumberKeys(ns)
  {
    if IntToString(x) in NumberKeys(ns) {
      var h :| h in ns && IntToString(h) == IntToString(x);
      IntToStringInjective(h, x);
    }
  }

  /** Every key the loop adds is the key of a number of the progression. */
  lemma {:induction false} InterpolateFromNewKeys(m: map<string, Point>, first: int, num: int, step: int, limit: int,
                                                  line: IndexedLine, lstep: real, k: string)
    requires step >= 1
    requires k in InterpolateFrom(m, first, num, step, limit, line, lstep) && k !in m
    ensures k in NumberKeys(Progression(num + first, step, limit))
    decreases limit - (num + first)
  {
    var m' := m[IntToString(num + first) := PointAt(line, lstep, num)];
    InterpolateFromUnfold(m, first, num, step, limit, line, lstep);
    ProgressionUnfoldAt(first, num, step, limit);
    if k == IntToString(num + first) {
      assert num + first in Progression(num + first, step, limit);
    } else {
      InterpolateFromNewKeys(m', first, num + step, step, limit, line, lstep, k);
      var h :| h in Progression((num + step) + first, step, limit) && IntToString(h) == k;
      assert h in Progression(num + first, step, limit);
    }
  }

  /** The loop keeps every entry whose key is not the key of a number of the progression. */
  lemma {:induction false} InterpolateFromOthers(m: map<string, Point>, first: int, num: int, step: int, limit: int,
                                                 line: IndexedLine, lstep: real, k: string)
    requires step >= 1 && k in m
    requires k !in NumberKeys(Progression(num + first, step, limit))
    ensures k in InterpolateFrom(m, first, num, step, limit, line, lstep)
    ensures InterpolateFrom(m, first, num, step, limit, line, lstep)[k] == m[k]
    decreases limit - (num + first)
  {
    if num + first < limit {
      var m' := m[IntToString(num + first) := PointAt(line, lstep, num)];
      InterpolateFromUnfold(m, first, num, step, limit, line, lstep);
      NumberKeysOfStep(first, num, step, limit, k);
      InterpolateFromOthers(m', first, num + step, step, limit, line, lstep, k);
    }
  }

  /** A key outside the keys of a progression is neither its first number's key nor a key of the rest. */
  lemma NumberKeysOfStep(first: int, num: int, step: int, limit: int, k: string)
    requires step >= 1 && num + first < limit
    requires k !in NumberKeys(Progression(num + first, step, limit))
    ensures k != IntToString(num + first)
    ensures k !in NumberKeys(Progression((num + step) + first, step, limit))
  {
    ProgressionUnfoldAt(first, num, step, limit);
    NumberKeysInsert(num + first, Progression((num + step) + first, step, limit));
  }

  /** The loop's first number keeps the point it is given: later numbers have other keys. */
  lemma InterpolateFromFirst(m: map<string, Point>, first: int, num: int, step: int, limit: int,
                             line: IndexedLine, lstep: real)
    requires step >= 1 && num + first < limit
    ensures IntToString(num + first) in InterpolateFrom(m, first, num, step, limit, line, lstep)
    ensures InterpolateFrom(m, first, num, step, limit, line, lstep)[IntToString(num + first)] == PointAt(line, lstep, num)
  {
    var m' := m[IntToString(num + first) := PointAt(line, lstep, num)];
    InterpolateFromUnfold(m, first, num, step, limit, line, lstep);
    ProgressionUnfoldAt(first, num, step, limit);
    NumberKeysMissing(num + first, Progression((num + step) + first, step, limit));
    InterpolateFromOthers(m', first, num + step, step, limit, line, lstep, IntToString(num + first));
  }

  /** Each number h of the progression ends up mapped to its point h - first steps along the line. */
  lemma {:induction false} InterpolateFromAt(m: map<string, Point>, first: int, num: int, step: int, limit: int,
                                             line: IndexedLine, lstep: real, h: int)
    requires step >= 1 && h in Progression(num + first, step, limit)
    ensures IntToString(h) in InterpolateFrom(m, first, num, step, limit, line, lstep)
    ensures InterpolateFrom(m, first, num, step, limit, line, lstep)[IntToString(h)] == PointAt(line, lstep, h - first)
    decreases limit - (num + first)
  {
    ProgressionUnfoldAt(first, num, step, limit);
    if h == num + first {
      InterpolateFromFirst(m, first, num, step, limit, line, lstep);
      assert h - first == num;
    } else {
      assert h in Progression((num + step) + first, step, limit);
      var m' := m[IntToString(num + first) := PointAt(line, lstep, num)];
      InterpolateFromUnfold(m, first, num, step, limit, line, lstep);
      InterpolateFromAt(m', first, num + step, step, limit, line, lstep, h);
    }
  }

  /** The loop's keys: the old keys and the keys of the numbers of the progression. */
  lemma InterpolateFromKeys(m: map<string, Point>, first: int, num: int, step: int, limit: int,
                            line: IndexedLine, lstep: real)
    requires step >= 1
    ensures InterpolateFrom(m, first, num, step, limit, line, lstep).Keys
         == m.Keys + NumberKeys(Progression(num + first, step, limit))
  {
    var r := InterpolateFrom(m, first, num, step, limit, line, lstep);
    var ks := NumberKeys(Progression(num + first, step, limit));
    forall k | k in r && k !in m
      ensures k in ks
    {
      InterpolateFromNewKeys(m, first, num, step, limit, line, lstep, k);
    }
    forall k | k in m
      ensures k in r
    {
      if k in ks {
        var h :| h in Progression(num + first, step, limit) && IntToString(h) == k;
        InterpolateFromAt(m, first, num, step, limit, line, lstep, h);
      } else {
        InterpolateFromOthers(m, first, num, step, limit, line, lstep, k);
      }
    }
    forall k | k in ks
      ensures k in r
    {
      var h :| h in Progression(num + first, step, limit) && IntToString(h) == k;
      InterpolateFromAt(m, first, num, step, limit, line, lstep, h);
    }
  }

  /** The loop only adds proper house numbers. */
  lemma InterpolateFromKeysValid(m: map<string, Point>, first: int, num: int, step: int, limit: int,
                                 line: IndexedLine, lstep: real)
    requires step >= 1 && ValidKeys(m)
    ensures ValidKeys(InterpolateFrom(m, first, num, step, limit, line, lstep))
  {
    forall k | k in InterpolateFrom(m, first, num, step, limit, line, lstep) && k !in m
      ensures IsHousenumberKey(k)
    {
      InterpolateFromNewKeys(m, first, num, step, limit, line, lstep, k);
      var h :| h in Progression(num + first, step, limit) && IntToString(h) == k;
      IntToStringIsKey(h);
    }
  }

  lemma DivTimes(a: real, d: real)
    requires d != 0.0
    ensures (a / d) * d == a
  {
  }

  /** The interpolated offset stays on the line for numbers inside the range. */
  lemma OffsetOnLine(line: IndexedLine, first: int, last: int, num: int)
    requires first < last && 0 <= num <= last - first
    requires line.startIndex <= line.endIndex
    ensures line.startIndex <= line.startIndex + LStep(line, first, last) * num as real <= line.endIndex
  {
    var d := (last - first) as real;
    var l := LStep(line, first, last);
    DivTimes(line.endIndex - line.startIndex, d);
    assert l * d == line.endIndex - line.startIndex;
    assert l >= 0.0;
    assert l * num as real <= l * d;
  }

  /** The last number of a range sits at the end of the line. */
  lemma LastAtLineEnd(line: IndexedLine, first: int, last: int)
    requires first < last
    ensures PointAt(line, LStep(line, first, last), last - first) == line.extractPoint(line.endIndex)
  {
    var l := LStep(line, first, last);
    DivTimes(line.endIndex - line.startIndex, (last - first) as real);
    PointAtOffset(line, l, last - first, line.endIndex);
  }

  /** The point num steps along the line is the one at the offset those steps reach. */
  lemma PointAtOffset(line: IndexedLine, lstep: real, num: int, offset: real)
    requires line.startIndex + lstep * num as real == offset
    ensures PointAt(line, lstep, num) == line.extractPoint(offset)
  {
  }

  // Old style: parity odd / even / all, both ends excluded.

  /** Java's % on long: the remainder takes the sign of the dividend. */
  function JavaRem(a: int, b: int): (r: int)
    requires b > 0
    ensures -b < r < b
    ensures a >= 0 ==> r >= 0
    ensures a < 0 ==> r <= 0
    ensures (a - r) % b == 0
  {
    if a >= 0 then
      DivModUnique(a - a % b, b, a / b, 0);
      a % b
    else
      DivModUnique(a + (-a) % b, b, -((-a) / b), 0);
      -((-a) % b)
  }

  /** The first offset from `first`, after the parity correction. */
  function OldStyleStart(first: int, interpolType: string): (start: int)
    ensures 1 <= start <= 2
    ensures interpolType == "odd" && (first >= 0 || first % 2 == 0) ==> (first + start) % 2 == 1
    ensures interpolType == "even" ==> (first + start) % 2 == 0
    ensures interpolType != "odd" && interpolType != "even" ==> start == 1
  {
    if interpolType == "odd" then (if JavaRem(first, 2) == 1 then 2 else 1)
    else if interpolType == "even" then (if JavaRem(first, 2) == 0 then 2 else 1)
    else 1
  }

  /** The distance between two generated numbers: 2 for a parity type, 1 for any other. */
  function OldStyleStep(interpolType: string): (step: int)
    ensures step == 2 <==> interpolType == "odd" || interpolType == "even"
    ensures step == 1 <==> interpolType != "odd" && interpolType != "even"
  {
    if interpolType == "odd" || interpolType == "even" then 2 else 1
  }

  /** The numbers an old-style interpolation adds; both ends of the range are left out. */
  function OldStyleNumbers(first: int, last: int, interpolType: string): (ns: set<int>)
    ensures forall h :: h in ns ==> first < h < last
    ensures !InRange(first, last) ==> ns == {}
  {
    if InRange(first, last) then
      Progression(OldStyleStart(first, interpolType) + first, OldStyleStep(interpolType), last)
    else {}
  }

  /**
   * The old-style addHouseNumbersFromInterpolation on the map m: outside the
   * range check nothing changes; otherwise the loop runs from the corrected
   * start in steps of OldStyleStep while below last.
   */
  function OldStyleInterpolation(m: map<string, Point>, first: int, last: int, interpolType: string,
                                 line: IndexedLine): (r: map<string, Point>)
    ensures m.Keys <= r.Keys
    ensures !InRange(first, last) ==> r == m
  {
    if InRange(first, last) then
      InterpolateFrom(m, first, OldStyleStart(first, interpolType), OldStyleStep(interpolType), last,
                      line, LStep(line, first, last))
    else m
  }

  /** The old-style keys: the keys already there and those of OldStyleNumbers, nothing else. */
  lemma OldStyleInterpolationKeys(m: map<string, Point>, first: int, last: int, interpolType: string, line: IndexedLine)
    ensures OldStyleInterpolation(m, first, last, interpolType, line).Keys
         == m.Keys + NumberKeys(OldStyleNumbers(first, last, interpolType))
  {
    if InRange(first, last) {
      InterpolateFromKeys(m, first, OldStyleStart(first, interpolType), OldStyleStep(interpolType), last,
                          line, LStep(line, first, last));
    } else {
      assert NumberKeys({}) == {};
    }
  }

  /** Each old-style number is mapped to its point along the line. */
  lemma OldStyleInterpolationValues(m: map<string, Point>, first: int, last: int, interpolType: string,
                                    line: IndexedLine, h: int)
    requires h in OldStyleNumbers(first, last, interpolType)
    ensures IntToString(h) in OldStyleInterpolation(m, first, last, interpolType, line)
    ensures OldStyleInterpolation(m, first, last, interpolType, line)[IntToString(h)]
         == PointAt(line, LStep(line, first, last), h - first)
  {
    InterpolateFromAt(m, first, OldStyleStart(first, interpolType), OldStyleStep(interpolType), last,
                      line, LStep(line, first, last), h);
  }

  /** Every entry whose key is not an old-style number is kept as it was. */
  lemma OldStyleInterpolationOthers(m: map<string, Point>, first: int, last: int, interpolType: string,
                                    line: IndexedLine, k: string)
    requires k in m && k !in NumberKeys(OldStyleNumbers(first, last, interpolType))
    ensures k in OldStyleInterpolation(m, first, last, interpolType, line)
    ensures OldStyleInterpolation(m, first, last, interpolType, line)[k] == m[k]
  {
    if InRange(first, last) {
      InterpolateFromOthers(m, first, OldStyleStart(first, interpolType), OldStyleStep(interpolType), last,
                            line, LStep(line, first, last), k);
    }
  }

  /** The old-style interpolation only adds proper house numbers. */
  lemma OldStyleInterpolationValid(m: map<string, Point>, first: int, last: int, interpolType: string,
                                   line: IndexedLine)
    requires ValidKeys(m)
    ensures ValidKeys(OldStyleInterpolation(m, first, last, interpolType, line))
  {
    if InRange(first, last) {
      InterpolateFromKeysValid(m, first, OldStyleStart(first, interpolType), OldStyleStep(interpolType), last,
                               line, LStep(line, first, last));
    }
  }

  /**
   * The old-style numbers in closed form: the numbers strictly between first
   * and last that are whole steps of OldStyleStep after the corrected start.
   */
  lemma OldStyleMembers(first: int, last: int, interpolType: string, h: int)
    requires InRange(first, last)
    ensures h in OldStyleNumbers(first, last, interpolType)
        <==> first + OldStyleStart(first, interpolType) <= h < last
             && (h - first - OldStyleStart(first, interpolType)) % OldStyleStep(interpolType) == 0
  {
    ProgressionMembers(OldStyleStart(first, interpolType) + first, OldStyleStep(interpolType), last, h);
  }

  /**
   * The range check of the old style: a range that is empty, reversed or wider
   * than MaxInterpolationWidth leaves the map as it is; a range of up to
   * MaxInterpolationWidth (the bound included) with room for a number of each
   * parity is filled.
   */
  lemma OldStyleRangeGuard(m: map<string, Point>, first: int, last: int, interpolType: string, line: IndexedLine)
    ensures last <= first || last - first > MaxInterpolationWidth ==>
              OldStyleInterpolation(m, first, last, interpolType, line) == m
    ensures 3 <= last - first <= MaxInterpolationWidth ==> OldStyleNumbers(first, last, interpolType) != {}
  {
    if 3 <= last - first <= MaxInterpolationWidth {
      var start := OldStyleStart(first, interpolType) + first;
      assert start in Progression(start, OldStyleStep(interpolType), last);
    }
  }

  /** "odd" adds exactly the odd numbers strictly inside the range, when first is not a negative odd number. */
  lemma OldStyleOdd(first: int, last: int)
    requires InRange(first, last) && (first >= 0 || first % 2 == 0)
    ensures OldStyleNumbers(first, last, "odd") == set h | h in Interval(first + 1, last) && h % 2 == 1
  {
    ParityProgression(first, OldStyleStart(first, "odd") + first, last, 1);
  }

  /**
   * With a negative odd first, Java's remainder is -1, the parity correction is
   * skipped, and "odd" adds the even numbers of the range instead.
   */
  lemma OldStyleOddNegativeFirst(first: int, last: int)
    requires InRange(first, last) && first < 0 && first % 2 == 1
    ensures OldStyleNumbers(first, last, "odd") == set h | h in Interval(first + 1, last) && h % 2 == 0
  {
    assert JavaRem(first, 2) == -1;
    ParityProgression(first, OldStyleStart(first, "odd") + first, last, 0);
  }

  /** "even" adds exactly the even numbers strictly inside the range, for every first. */
  lemma OldStyleEven(first: int, last: int)
    requires InRange(first, last)
    ensures OldStyleNumbers(first, last, "even") == set h | h in Interval(first + 1, last) && h % 2 == 0
  {
    ParityProgression(first, OldStyleStart(first, "even") + first, last, 0);
  }

  /**
   * Counting by two from the first number of parity p after first visits
   * exactly the numbers of parity p strictly between first and last.
   */
  lemma ParityProgression(first: int, start: int, last: int, p: int)
    requires 0 <= p < 2 && start % 2 == p
    requires start == first + 1 || (start == first + 2 && (first + 1) % 2 != p)
    ensures Progression(start, 2, last) == set h | h in Interval(first + 1, last) && h % 2 == p
  {
    forall h
      ensures h in Progression(start, 2, last) <==> h in Interval(first + 1, last) && h % 2 == p
    {
      ProgressionMembers(start, 2, last, h);
      SameParity(h, start);
    }
  }

  /** Two numbers are an even distance apart exactly when they have the same parity. */
  lemma SameParity(h: int, start: int)
    ensures (h - start) % 2 == 0 <==> h % 2 == start % 2
  {
  }

  /** Any other type adds every number strictly inside the range: last - first - 1 keys. */
  lemma OldStyleAll(first: int, last: int, interpolType: string)
    requires InRange(first, last) && interpolType != "odd" && interpolType != "even"
    ensures OldStyleNumbers(first, last, interpolType) == Interval(first + 1, last)
    ensures |NumberKeys(OldStyleNumbers(first, last, interpolType))| == last - first - 1
  {
    ProgressionUnitStep(first + 1, last);
    NumberKeysOfRange(first + 1, last);
  }

  // New style: explicit step, first excluded, last included.

  /** The numbers a new-style interpolation adds: first + 1, first + 1 + step, ... up to and including last. */
  function NewStyleNumbers(first: int, last: int, step: int): (ns: set<int>)
    requires (InRange(first, last) ==> step >= 1)
    ensures forall h :: h in ns ==> first < h <= last
    ensures !InRange(first, last) ==> ns == {}
  {
    if InRange(first, last) then Progression(1 + first, step, last + 1) else {}
  }

  /**
   * The new-style addHouseNumbersFromInterpolation on the map m: outside the
   * range check nothing changes; otherwise the loop runs from first + 1 in
   * steps of step while at or below last.
   */
  function NewStyleInterpolation(m: map<string, Point>, first: int, last: int, step: int,
                                 line: IndexedLine): (r: map<string, Point>)
    requires (InRange(first, last) ==> step >= 1)
    ensures m.Keys <= r.Keys
    ensures !InRange(first, last) ==> r == m
  {
    if InRange(first, last) then InterpolateFrom(m, first, 1, step, last + 1, line, LStep(line, first, last))
    else m
  }

  /** The new-style keys: the keys already there and those of NewStyleNumbers, nothing else. */
  lemma NewStyleInterpolationKeys(m: map<string, Point>, first: int, last: int, step: int, line: IndexedLine)
    requires (InRange(first, last) ==> step >= 1)
    ensures NewStyleInterpolation(m, first, last, step, line).Keys
         == m.Keys + NumberKeys(NewStyleNumbers(first, last, step))
  {
    if InRange(first, last) {
      InterpolateFromKeys(m, first, 1, step, last + 1, line, LStep(line, first, last));
    } else {
      assert NumberKeys({}) == {};
    }
  }

  /** Each new-style number is mapped to its point along the line. */
  lemma NewStyleInterpolationValues(m: map<string, Point>, first: int, last: int, step: int,
                                    line: IndexedLine, h: int)
    requires (InRange(first, last) ==> step >= 1) && h in NewStyleNumbers(first, last, step)
    ensures IntToString(h) in NewStyleInterpolation(m, first, last, step, line)
    ensures NewStyleInterpolation(m, first, last, step, line)[IntToString(h)]
         == PointAt(line, LStep(line, first, last), h - first)
  {
    InterpolateFromAt(m, first, 1, step, last + 1, line, LStep(line, first, last), h);
  }

  /** Every entry whose key is not a new-style number is kept as it was. */
  lemma NewStyleInterpolationOthers(m: map<string, Point>, first: int, last: int, step: int,
                                    line: IndexedLine, k: string)
    requires (InRange(first, last) ==> step >= 1) && k in m && k !in NumberKeys(NewStyleNumbers(first, last, step))
    ensures k in NewStyleInterpolation(m, first, last, step, line)
    ensures NewStyleInterpolation(m, first, last, step, line)[k] == m[k]
  {
    if InRange(first, last) {
      InterpolateFromOthers(m, first, 1, step, last + 1, line, LStep(line, first, last), k);
    }
  }

  /** The new-style interpolation only adds proper house numbers. */
  lemma NewStyleInterpolationValid(m: map<string, Point>, first: int, last: int, step: int, line: IndexedLine)
    requires (InRange(first, last) ==> step >= 1) && ValidKeys(m)
    ensures ValidKeys(NewStyleInterpolation(m, first, last, step, line))
  {
    if InRange(first, last) {
      InterpolateFromKeysValid(m, first, 1, step, last + 1, line, LStep(line, first, last));
    }
  }

  /**
   * The range check of the new style: a range that is empty, reversed or wider
   * than MaxInterpolationWidth leaves the map as it is; any other range, the
   * bound included, gets at least first + 1.
   */
  lemma NewStyleRangeGuard(m: map<string, Point>, first: int, last: int, step: int, line: IndexedLine)
    requires (InRange(first, last) ==> step >= 1)
    ensures last <= first || last - first > MaxInterpolationWidth ==>
              NewStyleInterpolation(m, first, last, step, line) == m
    ensures NewStyleNumbers(first, last, step) != {} <==> first < last && last - first <= MaxInterpolationWidth
  {
    if InRange(first, last) {
      assert 1 + first in Progression(1 + first, step, last + 1);
    }
  }

  /** With step 1 every number after first up to and including last is added: last - first keys. */
  lemma NewStyleUnitStep(first: int, last: int)
    requires InRange(first, last)
    ensures NewStyleNumbers(first, last, 1) == Interval(first + 1, last + 1)
    ensures |NumberKeys(NewStyleNumbers(first, last, 1))| == last - first
  {
    ProgressionUnitStep(1 + first, last + 1);
    NumberKeysOfRange(first + 1, last + 1);
  }

  /**
   * The new-style numbers in closed form: first + 1 + k * step for every k
   * that stays at or below last. Last itself is included exactly when it is
   * a whole number of steps after first + 1.
   */
  lemma NewStyleMembers(first: int, last: int, step: int, h: int)
    requires step >= 1 && InRange(first, last)
    ensures h in NewStyleNumbers(first, last, step) <==> first < h <= last && (h - first - 1) % step == 0
  {
    ProgressionMembers(1 + first, step, last + 1, h);
  }

  /** The worked example: 100 to 110 in steps of 5 adds 101 and 106. */
  lemma NewStyleExample()
    ensures NewStyleNumbers(100, 110, 5) == {101, 106}
  {
    forall h | h in NewStyleNumbers(100, 110, 5) ensures h == 101 || h == 106 {
    }
  }
}
