/**
 * A Nominatim result: the base document of one OSM object and the map from
 * house number to position that the import fills before the object is
 * indexed, once per house number.
 */
module Nominatim {
  import opened Wrappers
  import opened JavaStrings
  import opened Photon
  import opened Housenumbers

  /** Appending the document of key k covers k in addition to every key covered before. */
  lemma CoverOneMore(docs: seq<PhotonDoc>, d: PhotonDoc, keys: set<string>, remaining: set<string>, k: string)
    requires d.houseNumber == k
    requires forall k' :: k' in keys && k' !in remaining ==> exists i :: 0 <= i < |docs| && docs[i].houseNumber == k'
    ensures forall k' :: k' in keys && k' !in remaining - {k} ==>
      exists i :: 0 <= i < |docs + [d]| && (docs + [d])[i].houseNumber == k'
  {
    var docs' := docs + [d];
    forall k' | k' in keys && k' !in remaining - {k}
      ensures exists i :: 0 <= i < |docs'| && docs'[i].houseNumber == k'
    {
      if k' == k {
        assert docs'[|docs|].houseNumber == k';
      } else {
        var i :| 0 <= i < |docs| && docs[i].houseNumber == k';
        assert docs'[i] == docs[i];
      }
    }
  }

  /**
   * The documents an expansion produces from a map of proper keys carry
   * proper house numbers: with Valid(), every document of
   * GetDocsWithHousenumber has a non-empty, trimmed, ';'-free house number.
   */
  lemma ExpandedHousenumbersProper(m: map<string, Point>, docs: seq<PhotonDoc>)
    requires ValidKeys(m)
    requires forall i :: 0 <= i < |docs| ==> docs[i].houseNumber in m
    ensures forall i :: 0 <= i < |docs| ==> IsHousenumberKey(docs[i].houseNumber)
  {
    forall i | 0 <= i < |docs|
      ensures IsHousenumberKey(docs[i].houseNumber)
    {
      assert docs[i].houseNumber in m;
    }
  }

  class NominatimResult {
    var doc: PhotonDoc
    /** Absent until the first insertion in the source; here an empty map, which readers treat the same. */
    var housenumbers: map<string, Point>

    /** Every key is a proper house number: non-empty, trimmed, without ';'. */
    ghost predicate Valid()
      reads this
    {
      ValidKeys(housenumbers)
    }

    constructor (baseobj: PhotonDoc)
      ensures Valid()
      ensures doc == baseobj && housenumbers == map[]
    {
      doc := baseobj;
      housenumbers := map[];
    }

    /** The base document, as it was handed to the constructor. */
    function GetBaseDoc(): (d: PhotonDoc)
      reads this
      ensures d == doc
    {
      doc
    }

    /** Worth indexing when it carries a house number or the base document is useful on its own. */
    predicate IsUsefulForIndex()
      reads this
      ensures IsUsefulForIndex() <==> (exists k :: k in housenumbers) || doc.usefulForIndex
    {
      assert housenumbers != map[] ==> exists k :: k in housenumbers;
      housenumbers != map[] || doc.usefulForIndex
    }

    /**
     * One document per house number: a copy of the base document with the
     * house number and its position. Without house numbers, the base document
     * alone. The order of the copies is left open, as the map's iteration
     * order is.
     */
    method GetDocsWithHousenumber() returns (docs: seq<PhotonDoc>)
      ensures housenumbers == map[] ==> docs == [doc]
      ensures housenumbers != map[] ==> |docs| == |housenumbers|
      ensures housenumbers != map[] ==>
        forall i :: 0 <= i < |docs| ==>
          docs[i].houseNumber in housenumbers &&
          docs[i] == WithHousenumber(doc, docs[i].houseNumber, housenumbers[docs[i].houseNumber])
      ensures forall i, j :: 0 <= i < j < |docs| ==> docs[i].houseNumber != docs[j].houseNumber
      ensures forall k :: k in housenumbers ==> exists i :: 0 <= i < |docs| && docs[i].houseNumber == k
    {
      var numbers, base := housenumbers, doc;
      if numbers == map[] {
        return [base];
      }
      docs := [];
      var remaining := numbers.Keys;
      while remaining != {}
        invariant remaining <= numbers.Keys
        invariant |docs| + |remaining| == |numbers|
        invariant forall i :: 0 <= i < |docs| ==>
          docs[i].houseNumber in numbers && docs[i].houseNumber !in remaining &&
          docs[i] == WithHousenumber(base, docs[i].houseNumber, numbers[docs[i].houseNumber])
        invariant forall i, j :: 0 <= i < j < |docs| ==> docs[i].houseNumber != docs[j].houseNumber
        invariant forall k :: k in numbers && k !in remaining ==>
          exists i :: 0 <= i < |docs| && docs[i].houseNumber == k
        decreases |remaining|
      {
        var k :| k in remaining;
        CoverOneMore(docs, WithHousenumber(base, k, numbers[k]), numbers.Keys, remaining, k);
        docs := docs + [WithHousenumber(base, k, numbers[k])];
        remaining := remaining - {k};
      }
    }

    /**
     * addHousenumbersFromString: every non-empty trimmed ';'-separated field
     * of str becomes a house number at the base document's centroid.
     */
    method AddHousenumbersFromString(str: Option<string>)
      requires Valid()
      modifies this`housenumbers
      ensures Valid()
      ensures housenumbers == AddFromString(old(housenumbers), str, doc.centroid)
    {
      if str.None? || str.value == "" {
        AddFromStringAbsent(housenumbers, str, doc.centroid);
        return;
      }
      var parts := Split(str.value, ';');
      var i := 0;
      CollectStart(housenumbers, parts, doc.centroid);
      while i < |parts|
        invariant 0 <= i <= |parts|
        invariant housenumbers == old(housenumbers) + AllAt(SegmentsOf(parts[..i]), doc.centroid)
      {
        CollectStep(old(housenumbers), housenumbers, parts, i, doc.centroid);
        var h := Trim(parts[i]);
        if h != [] {
          housenumbers := housenumbers[h := doc.centroid];
        }
        i := i + 1;
      }
      CollectDone(old(housenumbers), housenumbers, str.value, i, doc.centroid);
    }

    /** addHousenumbersFromAddress: the collector on the housenumber, streetnumber and conscriptionnumber tags. */
    method AddHousenumbersFromAddress(address: Option<map<string, string>>)
      requires Valid()
      modifies this`housenumbers
      ensures Valid()
      ensures housenumbers == AddFromAddress(old(housenumbers), address, doc.centroid)
    {
      if address.None? {
        return;
      }
      AddHousenumbersFromString(Lookup(address.value, "housenumber"));
      AddHousenumbersFromString(Lookup(address.value, "streetnumber"));
      AddHousenumbersFromString(Lookup(address.value, "conscriptionnumber"));
    }

    /**
     * Old-style addHouseNumbersFromInterpolation: the numbers strictly between
     * first and last that match interpolType ("odd", "even", anything else
     * meaning all), each at its point along geom.
     */
    method AddHouseNumbersFromInterpolation(first: int, last: int, interpolType: string, geom: IndexedLine)
      requires Valid()
      modifies this`housenumbers
      ensures Valid()
      ensures housenumbers == OldStyleInterpolation(old(housenumbers), first, last, interpolType, geom)
    {
      if last <= first || last - first > MaxInterpolationWidth {
        return;
      }
      var lstep := LStep(geom, first, last);
      var step := 2;
      var num := 1;
      if interpolType == "odd" {
        if JavaRem(first, 2) == 1 {
          num := num + 1;
        }
      } else if interpolType == "even" {
        if JavaRem(first, 2) == 0 {
          num := num + 1;
        }
      } else {
        step := 1;
      }
      ghost var start := num;
      assert start == OldStyleStart(first, interpolType) && step == OldStyleStep(interpolType);
      while first + num < last
        invariant step >= 1
        invariant InterpolateFrom(housenumbers, first, num, step, last, geom, lstep)
               == InterpolateFrom(old(housenumbers), first, start, step, last, geom, lstep)
        decreases last - first - num
      {
        housenumbers := housenumbers[IntToString(num + first) := PointAt(geom, lstep, num)];
        num := num + step;
      }
      OldStyleInterpolationValid(old(housenumbers), first, last, interpolType, geom);
    }

    /**
     * New-style addHouseNumbersFromInterpolation: first + 1, first + 1 + step,
     * ... up to and including last, each at its point along geom.
     */
    method AddHouseNumbersFromInterpolationWithStep(first: int, last: int, step: int, geom: IndexedLine)
      requires InRange(first, last) ==> step >= 1
      requires Valid()
      modifies this`housenumbers
      ensures Valid()
      ensures housenumbers == NewStyleInterpolation(old(housenumbers), first, last, step, geom)
    {
      if last <= first || last - first > MaxInterpolationWidth {
        return;
      }
      var lstep := LStep(geom, first, last);
      var num := 1;
      while first + num <= last
        invariant InterpolateFrom(housenumbers, first, num, step, last + 1, geom, lstep)
               == InterpolateFrom(old(housenumbers), first, 1, step, last + 1, geom, lstep)
        decreases last - first - num
      {
        housenumbers := housenumbers[IntToString(num + first) := PointAt(geom, lstep, num)];
        num := num + step;
      }
      NewStyleInterpolationValid(old(housenumbers), first, last, step, geom);
    }
  }
}
