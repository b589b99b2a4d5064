/**
 * The price filter sheet: a constant table of four price ranges, the label
 * currently selected (or none) and the callbacks the sheet fires, in the order
 * it fires them.
 */
module Filter {
  import opened Wrappers

  /** One entry of `priceRanges`; `name` is the entry's `label`. */
  datatype PriceRange = PriceRange(name: string, min: int, max: int)

  /** A callback the sheet fires towards its parent. */
  datatype FilterCall = OnApply(minPrice: int, maxPrice: int) | OnClear | OnClose

  /** `priceRanges`. */
  function PriceRanges(): seq<PriceRange> {
    [ PriceRange("Hasta $20", 0, 20),
      PriceRange("$20 - $35", 20, 35),
      PriceRange("$35 - $50", 35, 50),
      PriceRange("Más de $50", 50, 1000) ]
  }

  /** Every range ends where the next one starts. */
  predicate Contiguous(rs: seq<PriceRange>) {
    forall i :: 0 <= i < |rs| - 1 ==> rs[i].max == rs[i + 1].min
  }

  /** No two ranges share a label. */
  predicate DistinctLabels(rs: seq<PriceRange>) {
    forall i, j :: 0 <= i < j < |rs| ==> rs[i].name != rs[j].name
  }

  /** Every range is non-empty. */
  predicate NonEmptyRanges(rs: seq<PriceRange>) {
    forall i :: 0 <= i < |rs| ==> rs[i].min < rs[i].max
  }

  /** The table runs from 0 to 1000 without gaps, its ranges are non-empty and
      its labels are distinct and non-empty. */
  lemma PriceRangesShape()
    ensures |PriceRanges()| == 4
    ensures PriceRanges()[0].min == 0 && PriceRanges()[3].max == 1000
    ensures Contiguous(PriceRanges()) && NonEmptyRanges(PriceRanges())
    ensures DistinctLabels(PriceRanges())
    ensures forall i :: 0 <= i < |PriceRanges()| ==> PriceRanges()[i].name != ""
  {
    var rs := PriceRanges();
    assert rs[0].name[0] == 'H' && rs[1].name[1] == '2' && rs[2].name[1] == '3' && rs[3].name[0] == 'M';
  }

  /** `rs.find(r => r.label === label)`: the first range with that label. */
  function Find(rs: seq<PriceRange>, name: string): Option<PriceRange> {
    if rs == [] then None
    else if rs[0].name == name then Some(rs[0])
    else Find(rs[1..], name)
  }

  /** `Find` answers `None` exactly when no range has the label, and otherwise
      the first range that has it. */
  lemma {:induction false} FindSpec(rs: seq<PriceRange>, name: string)
    ensures Find(rs, name).None? <==> forall i :: 0 <= i < |rs| ==> rs[i].name != name
    ensures Find(rs, name).Some? ==>
      exists i :: 0 <= i < |rs| && rs[i] == Find(rs, name).value &&
        rs[i].name == name && forall j :: 0 <= j < i ==> rs[j].name != name
  {
    if rs != [] && rs[0].name != name {
      FindSpec(rs[1..], name);
      if Find(rs[1..], name).Some? {
        var i :| 0 <= i < |rs[1..]| && rs[1..][i] == Find(rs[1..], name).value &&
          rs[1..][i].name == name && forall j :: 0 <= j < i ==> rs[1..][j].name != name;
        assert rs[i + 1] == rs[1..][i];
        forall j | 0 <= j < i + 1 ensures rs[j].name != name {
          if j > 0 { assert rs[j] == rs[1..][j - 1]; }
        }
      } else {
        forall i | 0 <= i < |rs| ensures rs[i].name != name {
          if i > 0 { assert rs[i] == rs[1..][i - 1]; }
        }
      }
    }
  }

  /** With distinct labels, looking up a range's own label finds that range. */
  lemma FindOwnLabel(rs: seq<PriceRange>, i: nat)
    requires DistinctLabels(rs) && i < |rs|
    ensures Find(rs, rs[i].name) == Some(rs[i])
  {
    FindSpec(rs, rs[i].name);
    var k :| 0 <= k < |rs| && rs[k] == Find(rs, rs[i].name).value &&
      rs[k].name == rs[i].name && forall j :: 0 <= j < k ==> rs[j].name != rs[i].name;
    assert !(k < i) && !(i < k);
  }

  /** Ranges that are contiguous and non-empty are in increasing order. */
  lemma {:induction false} ContiguousOrdered(rs: seq<PriceRange>, i: nat, j: nat)
    requires Contiguous(rs) && NonEmptyRanges(rs)
    requires i < j < |rs|
    ensures rs[i].max <= rs[j].min
    decreases j - i
  {
    if i + 1 < j {
      ContiguousOrdered(rs, i + 1, j);
    }
  }

  /** A price the plans query keeps for a range: its bounds go to `onApply`,
      and the query keeps prices `>= min` and `<= max`. A plan's `precio` is a
      JavaScript number, so it may have a fractional part. */
  predicate InRange(r: PriceRange, p: real) {
    r.min as real <= p <= r.max as real
  }

  /** Contiguous non-empty ranges from `rs[0].min` to the last `max` place
      every price of that span in some range, and two ranges hold a common
      price only when they are neighbours and the price is the bound they
      share. */
  lemma {:induction false} PriceInClosedRanges(rs: seq<PriceRange>, p: real)
    requires rs != [] && Contiguous(rs) && NonEmptyRanges(rs)
    requires rs[0].min as real <= p <= rs[|rs| - 1].max as real
    ensures exists i :: 0 <= i < |rs| && InRange(rs[i], p)
    ensures forall i, j :: 0 <= i < j < |rs| && InRange(rs[i], p) && InRange(rs[j], p) ==>
      j == i + 1 && p == rs[i].max as real && rs[i].max == rs[j].min
  {
    if p <= rs[0].max as real {
      assert InRange(rs[0], p);
    } else {
      var tail := rs[1..];
      assert |rs| > 1;
      assert tail[0] == rs[1];
      assert tail[|tail| - 1] == rs[|rs| - 1];
      assert Contiguous(tail) by {
        forall i | 0 <= i < |tail| - 1 ensures tail[i].max == tail[i + 1].min {
          assert tail[i] == rs[i + 1] && tail[i + 1] == rs[i + 2];
        }
      }
      PriceInClosedRanges(tail, p);
      var i :| 0 <= i < |tail| && InRange(tail[i], p);
      assert rs[i + 1] == tail[i];
    }
    forall i, j | 0 <= i < j < |rs| && InRange(rs[i], p) && InRange(rs[j], p)
      ensures j == i + 1 && p == rs[i].max as real && rs[i].max == rs[j].min
    {
      if i + 1 < j {
        ContiguousOrdered(rs, i + 1, j);
      }
    }
  }

  /** Every price from 0 to 1000 falls in some range of the table, and only
      20, 35 and 50 fall in two. */
  lemma TablePriceCoverage(p: real)
    requires 0.0 <= p <= 1000.0
    ensures exists i :: 0 <= i < |PriceRanges()| && InRange(PriceRanges()[i], p)
    ensures forall i, j :: 0 <= i < j < |PriceRanges()| && InRange(PriceRanges()[i], p) && InRange(PriceRanges()[j], p) ==>
      p == 20.0 || p == 35.0 || p == 50.0
  {
    PriceRangesShape();
    PriceInClosedRanges(PriceRanges(), p);
  }

  /** A label of the table is non-empty, and looking it up finds the entry
      at its index. */
  lemma TableLookup(name: string) returns (i: nat)
    requires exists k :: 0 <= k < |PriceRanges()| && PriceRanges()[k].name == name
    ensures i < |PriceRanges()| && PriceRanges()[i].name == name && name != ""
    ensures Find(PriceRanges(), name) == Some(PriceRanges()[i])
  {
    PriceRangesShape();
    i :| 0 <= i < |PriceRanges()| && PriceRanges()[i].name == name;
    FindOwnLabel(PriceRanges(), i);
  }

  /** JavaScript truthiness of `string | null`: `null` and "" are false. */
  predicate Truthy(s: Option<string>) {
    s.Some? && s.value != ""
  }

  class FilterModal {
    var selectedRange: Option<string>
    var calls: seq<FilterCall>

    /** The selection, when there is one, is the label of a table entry. */
    predicate Valid()
      reads this
    {
      selectedRange.Some? ==> exists i :: 0 <= i < |PriceRanges()| && PriceRanges()[i].name == selectedRange.value
    }

    constructor ()
      ensures Valid()
      ensures selectedRange == None && calls == []
    {
      selectedRange := None;
      calls := [];
    }

    /** A range's `onPress`: the selection becomes exactly its label. */
    method Select(i: nat)
      requires i < |PriceRanges()|
      modifies this`selectedRange
      ensures Valid()
      ensures selectedRange == Some(PriceRanges()[i].name)
    {
      selectedRange := Some(PriceRanges()[i].name);
    }

    /** `disabled={!selectedRange}` on the apply button. */
    function ApplyDisabled(): (disabled: bool)
      reads this
      ensures Valid() ==> (disabled <==> selectedRange == None)
    {
      PriceRangesShape();
      !Truthy(selectedRange)
    }

    /** `handleApply`: with no selection nothing is fired; with one, `onApply`
        gets the bounds of the range carrying that label, then `onClose` runs.
        The selection is kept. */
    method HandleApply()
      requires Valid()
      modifies this`calls
      ensures Valid()
      ensures selectedRange == None ==> calls == old(calls)
      ensures selectedRange.Some? ==>
        exists i :: 0 <= i < |PriceRanges()| &&
          PriceRanges()[i].name == selectedRange.value &&
          calls == old(calls) + [OnApply(PriceRanges()[i].min, PriceRanges()[i].max), OnClose]
    {
      if Truthy(selectedRange) {
        var range := Find(PriceRanges(), selectedRange.value);
        if range.Some? {
          calls := calls + [OnApply(range.value.min, range.value.max)];
          calls := calls + [OnClose];
        }
      }
      if selectedRange.Some? {
        ghost var i := TableLookup(selectedRange.value);
        assert calls == old(calls) + [OnApply(PriceRanges()[i].min, PriceRanges()[i].max), OnClose];
      }
    }

    /** `handleClear`: the selection is dropped, then `onClear` and `onClose`
        fire, in that order. */
    method HandleClear()
      modifies this`selectedRange, this`calls
      ensures Valid()
      ensures selectedRange == None
      ensures calls == old(calls) + [OnClear, OnClose]
    {
      selectedRange := None;
      calls := calls + [OnClear];
      calls := calls + [OnClose];
    }

    /** The close button and the hardware back button call `onClose` directly;
        the selection is kept. */
    method Dismiss()
      modifies this`calls
      ensures calls == old(calls) + [OnClose]
    {
      calls := calls + [OnClose];
    }
  }
}
