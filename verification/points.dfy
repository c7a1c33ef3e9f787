/**
 * The second checkpoint of the program: every parsed entry is converted with
 * `convertToDecimal`, and the `(x, y)` map keeps the entries whose conversion
 * succeeded. A failed conversion is reported and drops only that point.
 */
module Points {
  import opened Wrappers
  import opened Numerals
  import opened Radix
  import opened Entries

  /** The conversion of one entry's value in its own base. */
  function Decode(e: Entry): Result<int, ConvertError> {
    ConvertToDecimal(e.value, e.base)
  }

  /** The `(x, y)` map: each key whose entry decodes, with its decoded value. */
  function Points(entries: map<int, Entry>): map<int, int> {
    map x | x in entries && Decode(entries[x]).Success? :: Decode(entries[x]).value
  }

  /**
   * A key has a point exactly when its base reads as a number and every digit
   * of its value lies below that base; the point is the value read in that base.
   */
  lemma PointsMeaning(entries: map<int, Entry>, x: int)
    ensures x in Points(entries) <==>
      x in entries && Stoi(entries[x].base).Some? && AllDigitsBelow(entries[x].value, Stoi(entries[x].base).value)
    ensures x in Points(entries) ==> Points(entries)[x] == Horner(entries[x].value, Stoi(entries[x].base).value)
  {
  }

  /**
   * The loop over the entries: each key is visited once, and a conversion that
   * fails leaves the map as it was.
   */
  method AssemblePoints(entries: map<int, Entry>) returns (xy: map<int, int>)
    ensures forall x :: x in xy <==> x in entries && ConvertToDecimal(entries[x].value, entries[x].base).Success?
    ensures forall x :: x in xy ==> xy[x] == ConvertToDecimal(entries[x].value, entries[x].base).value
    ensures xy == Points(entries)
  {
    xy := map[];
    var remaining := entries.Keys;
    assert entries - remaining == map[];
    while remaining != {}
      invariant remaining <= entries.Keys
      invariant xy == Points(entries - remaining)
      decreases remaining
    {
      SomeKeyLeft(remaining);
      var x: int :| x in remaining;
      var y := Decode(entries[x]);
      AssembleStep(entries, remaining, x);
      if y.Success? {
        xy := xy[x := y.value];
      }
      remaining := remaining - {x};
    }
    assert entries - remaining == entries;
  }

  /** A non-empty set of keys has a key to visit next. */
  lemma SomeKeyLeft(keys: set<int>)
    requires keys != {}
    ensures exists x :: x in keys
  {
    if forall x :: x !in keys {
      assert false;
    }
  }

  /** Visiting one more key adds its point when its entry converts, and nothing otherwise. */
  lemma AssembleStep(entries: map<int, Entry>, remaining: set<int>, x: int)
    requires x in remaining && remaining <= entries.Keys
    ensures Decode(entries[x]).Success? ==>
      Points(entries - (remaining - {x})) == Points(entries - remaining)[x := Decode(entries[x]).value]
    ensures Decode(entries[x]).Failure? ==>
      Points(entries - (remaining - {x})) == Points(entries - remaining)
  {
    var e := entries[x];
    assert entries - (remaining - {x}) == (entries - remaining)[x := e];
    if Decode(e).Success? {
      PointsSetSuccess(entries - remaining, x, e);
    } else {
      PointsDropFailure(entries - remaining, x, e);
    }
  }

  /** An entry that does not convert contributes no point, whatever was stored under its key before. */
  lemma PointsDropFailure(entries: map<int, Entry>, x: int, e: Entry)
    requires Decode(e).Failure?
    ensures Points(entries[x := e]) == Points(entries) - {x}
  {
  }

  /** An entry that converts sets its point, leaving every other point as it was. */
  lemma PointsSetSuccess(entries: map<int, Entry>, x: int, e: Entry)
    requires Decode(e).Success?
    ensures Points(entries[x := e]) == Points(entries)[x := Decode(e).value]
  {
  }

  /**
   * Two entries that convert and one whose digit is out of range: the `(x, y)`
   * map holds the first two and not the third.
   */
  lemma PointsSample()
    ensures Points(map[2 := Entry("2", "111"), 3 := Entry("2", "5"), 6 := Entry("4", "213")])
      == map[2 := 7, 6 := 39]
  {
    var entries := map[2 := Entry("2", "111"), 3 := Entry("2", "5"), 6 := Entry("4", "213")];
    assert Decode(entries[2]) == Success(7) && Decode(entries[6]) == Success(39) by { ConvertSamples(); }
    assert Decode(entries[3]).Failure? by { ConvertDigitCheckEdges(); }
    var xy := Points(entries);
    assert xy.Keys == {2, 6};
  }
}
