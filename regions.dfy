/**
 * Region eligibility (get_all_regions): of the regions the provider lists,
 * keep, in their listed order, the names of those whose opt-in status is
 * "opt-in-not-required" or "opted-in".
 */
module Regions {

  datatype RegionEntry = RegionEntry(regionName: string, optInStatus: string)

  predicate IsEligible(entry: RegionEntry)
  {
    entry.optInStatus == "opt-in-not-required" || entry.optInStatus == "opted-in"
  }

  /** The names of the eligible entries, in order (the list comprehension). */
  function EligibleRegions(entries: seq<RegionEntry>): (names: seq<string>)
    ensures |names| <= |entries|
  {
    if entries == [] then []
    else (if IsEligible(entries[0]) then [entries[0].regionName] else []) + EligibleRegions(entries[1..])
  }

  /** Filtering a concatenation filters each part and keeps them in order. */
  lemma {:induction false} EligibleRegionsAppend(front: seq<RegionEntry>, back: seq<RegionEntry>)
    ensures EligibleRegions(front + back) == EligibleRegions(front) + EligibleRegions(back)
  {
    if front == [] {
      assert front + back == back;
    } else {
      var whole := front + back;
      assert whole[0] == front[0];
      assert whole[1..] == front[1..] + back;
      var first := if IsEligible(front[0]) then [front[0].regionName] else [];
      assert EligibleRegions(whole) == first + EligibleRegions(front[1..] + back);
      EligibleRegionsAppend(front[1..], back);
      assert EligibleRegions(front) == first + EligibleRegions(front[1..]);
    }
  }

  /** A name is kept exactly when some eligible entry carries it. */
  lemma {:induction false} EligibleRegionsMembership(entries: seq<RegionEntry>, name: string)
    ensures name in EligibleRegions(entries) <==>
            exists k :: 0 <= k < |entries| && IsEligible(entries[k]) && entries[k].regionName == name
  {
    if entries != [] {
      EligibleRegionsMembership(entries[1..], name);
      if name in EligibleRegions(entries[1..]) {
        var k :| 0 <= k < |entries[1..]| && IsEligible(entries[1..][k]) && entries[1..][k].regionName == name;
        assert entries[k + 1] == entries[1..][k];
      }
      if exists k :: 0 <= k < |entries| && IsEligible(entries[k]) && entries[k].regionName == name {
        var k :| 0 <= k < |entries| && IsEligible(entries[k]) && entries[k].regionName == name;
        if k > 0 {
          assert entries[1..][k - 1] == entries[k];
        }
      }
    }
  }

  /**
   * The filter is an order-preserving selection: there are strictly
   * increasing positions `idx` into `entries`, exactly the eligible ones,
   * whose names are the result, in order.
   */
  lemma {:induction false} EligibleRegionsPositions(entries: seq<RegionEntry>) returns (idx: seq<nat>)
    ensures |idx| == |EligibleRegions(entries)|
    ensures forall i :: 0 <= i < |idx| ==> idx[i] < |entries| && IsEligible(entries[idx[i]])
    ensures forall i :: 0 <= i < |idx| ==> EligibleRegions(entries)[i] == entries[idx[i]].regionName
    ensures forall i :: 0 < i < |idx| ==> idx[i - 1] < idx[i]
    ensures forall k :: 0 <= k < |entries| && IsEligible(entries[k]) ==> k in idx
  {
    if entries == [] {
      idx := [];
    } else {
      var n := |entries| - 1;
      var init := entries[..n];
      var rest := EligibleRegionsPositions(init);
      assert entries == init + [entries[n]];
      EligibleRegionsAppend(init, [entries[n]]);
      assert EligibleRegions([entries[n]]) == if IsEligible(entries[n]) then [entries[n].regionName] else [];
      forall k | 0 <= k < n ensures init[k] == entries[k] { }
      var last: seq<nat> := if IsEligible(entries[n]) then [n] else [];
      idx := rest + last;
      forall i | 0 <= i < |idx|
        ensures idx[i] < |entries| && IsEligible(entries[idx[i]])
        ensures EligibleRegions(entries)[i] == entries[idx[i]].regionName
      {
        if i < |rest| {
          assert idx[i] == rest[i] && entries[rest[i]] == init[rest[i]];
        }
      }
      forall i | 0 < i < |idx| ensures idx[i - 1] < idx[i] {
        if i < |rest| {
          assert idx[i - 1] == rest[i - 1] && idx[i] == rest[i];
        } else {
          assert idx[i - 1] == rest[i - 1] < n;
        }
      }
      forall k | 0 <= k < |entries| && IsEligible(entries[k]) ensures k in idx {
        if k < n {
          assert init[k] == entries[k];
          assert k in rest;
        } else {
          assert idx[|rest|] == n;
        }
      }
    }
  }
}
