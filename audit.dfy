/**
 * The audit aggregation loop of lambda_handler: for each eligible region in
 * order, for each running instance in that region in order, build one result
 * record (region, name, owner, public IP, port-22 status, instance id), count
 * the instance, and count it again as exposed when its port check succeeds.
 * The port check (is_port_open) is an oracle `probe` on the address.
 */
module Audit {
  import opened Wrappers
  import opened Tags

  /** A running instance as the inventory reports it. */
  datatype Instance = Instance(id: string, tags: Option<seq<Tag>>, publicIpAddress: Option<string>)

  /** A region name with the running instances listed for it. */
  datatype RegionInstances = RegionInstances(region: string, instances: seq<Instance>)

  datatype PortStatus = Open | Closed

  /** One row of `results`: the six fields the handler appends. */
  datatype Record = Record(region: string, name: string, owner: string, publicIp: string,
                           port22: PortStatus, instanceId: string)

  /** Stands for "no public address" in the Public IP field. */
  const NoAddress := "N/A"

  /** The Public IP field: the address when it is present and non-empty, else "N/A". */
  function PublicIp(inst: Instance): (ip: string)
    ensures ip == NoAddress || inst.publicIpAddress == Some(ip)
    ensures inst.publicIpAddress.None? || inst.publicIpAddress == Some("") ==> ip == NoAddress
    ensures inst.publicIpAddress.Some? && inst.publicIpAddress.value != "" ==> ip == inst.publicIpAddress.value
  {
    match inst.publicIpAddress
    case Some(a) => if a != "" then a else NoAddress
    case None => NoAddress
  }

  /** The record the handler builds for `inst`, found in `region`. */
  function RecordOf(region: string, inst: Instance, probe: string -> bool): (r: Record)
    ensures r.region == region && r.instanceId == inst.id && r.publicIp == PublicIp(inst)
    ensures r.name == TagValueOr(inst.tags, NameKey, NameDefault) && r.owner == TagValueOr(inst.tags, OwnerKey, OwnerDefault)
    ensures r.port22 == Open <==> r.publicIp != NoAddress && probe(r.publicIp)
  {
    var ip := PublicIp(inst);
    Record(region, TagValueOr(inst.tags, NameKey, NameDefault), TagValueOr(inst.tags, OwnerKey, OwnerDefault),
           ip, if ip != NoAddress && probe(ip) then Open else Closed, inst.id)
  }

  /** The records of one region's instances, in instance order. */
  function RegionRecords(region: string, instances: seq<Instance>, probe: string -> bool): seq<Record>
  {
    if instances == [] then []
    else RegionRecords(region, instances[..|instances| - 1], probe)
         + [RecordOf(region, instances[|instances| - 1], probe)]
  }

  /** The records of all regions: region order, then instance order. */
  function AllRecords(regions: seq<RegionInstances>, probe: string -> bool): seq<Record>
  {
    if regions == [] then []
    else AllRecords(regions[..|regions| - 1], probe)
         + RegionRecords(regions[|regions| - 1].region, regions[|regions| - 1].instances, probe)
  }

  /** The number of instances listed over all regions. */
  function TotalInstances(regions: seq<RegionInstances>): nat
  {
    if regions == [] then 0
    else TotalInstances(regions[..|regions| - 1]) + |regions[|regions| - 1].instances|
  }

  /** The number of records whose port-22 status is Open. */
  function CountOpen(records: seq<Record>): (n: nat)
    ensures n <= |records|
  {
    if records == [] then 0
    else CountOpen(records[..|records| - 1]) + (if records[|records| - 1].port22 == Open then 1 else 0)
  }

  /** The addresses handed to the port check, one per record that has an address, in order. */
  function ProbeCalls(records: seq<Record>): seq<string>
  {
    if records == [] then []
    else ProbeCalls(records[..|records| - 1])
         + (if records[|records| - 1].publicIp != NoAddress then [records[|records| - 1].publicIp] else [])
  }

  lemma SnocSteps(records: seq<Record>, r: Record)
    ensures CountOpen(records + [r]) == CountOpen(records) + (if r.port22 == Open then 1 else 0)
    ensures ProbeCalls(records + [r]) == ProbeCalls(records) + (if r.publicIp != NoAddress then [r.publicIp] else [])
  {
    assert (records + [r])[..|records|] == records;
  }

  /**
   * The nested loops of lambda_handler. Besides `results` and the two
   * counters it returns `probed`, the addresses passed to the port check in
   * call order.
   */
  method AuditInstances(regions: seq<RegionInstances>, probe: string -> bool)
    returns (results: seq<Record>, totalInstances: nat, openPortInstances: nat, probed: seq<string>)
    ensures results == AllRecords(regions, probe)
    ensures totalInstances == |results| == TotalInstances(regions)
    ensures openPortInstances == CountOpen(results) <= totalInstances
    ensures probed == ProbeCalls(results)
  {
    results, totalInstances, openPortInstances, probed := [], 0, 0, [];
    var i := 0;
    while i < |regions|
      invariant 0 <= i <= |regions|
      invariant results == AllRecords(regions[..i], probe)
      invariant totalInstances == |results| == TotalInstances(regions[..i])
      invariant openPortInstances == CountOpen(results)
      invariant probed == ProbeCalls(results)
    {
      assert AllRecords(regions[..i + 1], probe)
               == AllRecords(regions[..i], probe) + RegionRecords(regions[i].region, regions[i].instances, probe)
          && TotalInstances(regions[..i + 1]) == TotalInstances(regions[..i]) + |regions[i].instances| by {
        assert regions[..i + 1][..i] == regions[..i];
      }
      results, totalInstances, openPortInstances, probed :=
        AuditRegion(regions[i].region, regions[i].instances, probe, results, totalInstances, openPortInstances, probed);
      i := i + 1;
    }
    assert regions[..i] == regions;
  }

  /**
   * The inner loop of lambda_handler over one region's instances: it extends
   * `results` and the counters of the regions before it.
   */
  method AuditRegion(region: string, instances: seq<Instance>, probe: string -> bool,
                     results0: seq<Record>, total0: nat, open0: nat, probed0: seq<string>)
    returns (results: seq<Record>, totalInstances: nat, openPortInstances: nat, probed: seq<string>)
    requires total0 == |results0| && open0 == CountOpen(results0) && probed0 == ProbeCalls(results0)
    ensures results == results0 + RegionRecords(region, instances, probe)
    ensures totalInstances == |results| == total0 + |instances|
    ensures openPortInstances == CountOpen(results)
    ensures probed == ProbeCalls(results)
  {
    results, totalInstances, openPortInstances, probed := results0, total0, open0, probed0;
    var j := 0;
    while j < |instances|
      invariant 0 <= j <= |instances|
      invariant results == results0 + RegionRecords(region, instances[..j], probe)
      invariant totalInstances == |results| == total0 + j
      invariant openPortInstances == CountOpen(results)
      invariant probed == ProbeCalls(results)
    {
      var instance := instances[j];
      totalInstances := totalInstances + 1;
      var name := GetInstanceName(instance.tags);
      var owner := GetInstanceOwner(instance.tags);
      var publicIp := PublicIp(instance);
      var portOpen := Closed;
      if publicIp != NoAddress {
        probed := probed + [publicIp];
        if probe(publicIp) {
          portOpen := Open;
          openPortInstances := openPortInstances + 1;
        }
      }
      var record := Record(region, name, owner, publicIp, portOpen, instance.id);
      assert RegionRecords(region, instances[..j + 1], probe) == RegionRecords(region, instances[..j], probe) + [record] by {
        assert record == RecordOf(region, instance, probe);
        assert instances[..j + 1][..j] == instances[..j];
      }
      SnocSteps(results, record);
      results := results + [record];
      j := j + 1;
    }
    assert instances[..j] == instances;
  }

  /** One region contributes one record per instance. */
  lemma {:induction false} RegionRecordsLength(region: string, instances: seq<Instance>, probe: string -> bool)
    ensures |RegionRecords(region, instances, probe)| == |instances|
  {
    if instances != [] {
      RegionRecordsLength(region, instances[..|instances| - 1], probe);
    }
  }

  /** The k-th record of a region is built from its k-th instance, tagged with that region. */
  lemma {:induction false} RegionRecordAt(region: string, instances: seq<Instance>, probe: string -> bool, k: int)
    requires 0 <= k < |instances|
    ensures |RegionRecords(region, instances, probe)| == |instances|
    ensures RegionRecords(region, instances, probe)[k] == RecordOf(region, instances[k], probe)
  {
    var n := |instances| - 1;
    RegionRecordsLength(region, instances, probe);
    RegionRecordsLength(region, instances[..n], probe);
    if k < n {
      RegionRecordAt(region, instances[..n], probe, k);
    }
  }

  /** total_instances counts every record: one per listed instance. */
  lemma {:induction false} AllRecordsLength(regions: seq<RegionInstances>, probe: string -> bool)
    ensures |AllRecords(regions, probe)| == TotalInstances(regions)
  {
    if regions != [] {
      var n := |regions| - 1;
      AllRecordsLength(regions[..n], probe);
      RegionRecordsLength(regions[n].region, regions[n].instances, probe);
    }
  }

  /**
   * Order and provenance: instance j of region i yields the record at
   * position TotalInstances(regions[..i]) + j, carrying region i's name.
   */
  lemma {:induction false} RecordAt(regions: seq<RegionInstances>, probe: string -> bool, i: int, j: int)
    requires 0 <= i < |regions| && 0 <= j < |regions[i].instances|
    ensures TotalInstances(regions[..i]) + j < |AllRecords(regions, probe)|
    ensures AllRecords(regions, probe)[TotalInstances(regions[..i]) + j]
            == RecordOf(regions[i].region, regions[i].instances[j], probe)
  {
    var n := |regions| - 1;
    var init := regions[..n];
    AllRecordsLength(init, probe);
    if i == n {
      assert init == regions[..i];
      RegionRecordAt(regions[n].region, regions[n].instances, probe, j);
    } else {
      assert init[..i] == regions[..i];
      assert init[i] == regions[i];
      RecordAt(init, probe, i, j);
    }
  }

  /** Conversely, every record comes from some instance of some region. */
  lemma {:induction false} RecordOrigin(regions: seq<RegionInstances>, probe: string -> bool, k: int)
      returns (i: nat, j: nat)
    requires 0 <= k < |AllRecords(regions, probe)|
    ensures i < |regions| && j < |regions[i].instances|
    ensures k == TotalInstances(regions[..i]) + j
    ensures AllRecords(regions, probe)[k] == RecordOf(regions[i].region, regions[i].instances[j], probe)
  {
    var n := |regions| - 1;
    var init := regions[..n];
    AllRecordsLength(init, probe);
    if k < |AllRecords(init, probe)| {
      i, j := RecordOrigin(init, probe, k);
      assert init[..i] == regions[..i];
    } else {
      i, j := n, k - |AllRecords(init, probe)|;
      assert regions[..n] == init;
      RegionRecordsLength(regions[n].region, regions[n].instances, probe);
      RegionRecordAt(regions[n].region, regions[n].instances, probe, j);
    }
  }

  /** The status rule: a record is Open exactly when it has an address and the check on it succeeded. */
  predicate StatusAgrees(r: Record, probe: string -> bool)
  {
    r.port22 == Open <==> r.publicIp != NoAddress && probe(r.publicIp)
  }

  lemma {:induction false} AllRecordsStatus(regions: seq<RegionInstances>, probe: string -> bool)
    ensures forall k :: 0 <= k < |AllRecords(regions, probe)| ==> StatusAgrees(AllRecords(regions, probe)[k], probe)
  {
    forall k | 0 <= k < |AllRecords(regions, probe)| ensures StatusAgrees(AllRecords(regions, probe)[k], probe) {
      var i, j := RecordOrigin(regions, probe, k);
    }
  }

  /**
   * An instance without a public address is recorded with "N/A" and Closed,
   * whatever the port check would have said.
   */
  lemma NoAddressIsClosed(region: string, inst: Instance, probe: string -> bool, other: string -> bool)
    requires inst.publicIpAddress.None? || inst.publicIpAddress == Some("")
    ensures RecordOf(region, inst, probe).publicIp == NoAddress
    ensures RecordOf(region, inst, probe).port22 == Closed
    ensures RecordOf(region, inst, probe) == RecordOf(region, inst, other)
  {
  }

  /** The port check is never called without an address, and is called once for every record that has one. */
  lemma {:induction false} ProbeCallsSpec(records: seq<Record>)
    ensures NoAddress !in ProbeCalls(records)
    ensures forall k :: 0 <= k < |records| && records[k].publicIp != NoAddress ==> records[k].publicIp in ProbeCalls(records)
    ensures |ProbeCalls(records)| <= |records|
  {
    if records != [] {
      var n := |records| - 1;
      ProbeCallsSpec(records[..n]);
      forall k | 0 <= k < n ensures records[k] == records[..n][k] { }
    }
  }

  /** open_port_instances counts exactly the records whose status is Open. */
  lemma {:induction false} CountOpenIsOpenRecords(records: seq<Record>)
    ensures CountOpen(records) == |set k | 0 <= k < |records| && records[k].port22 == Open|
  {
    if records != [] {
      var n := |records| - 1;
      CountOpenIsOpenRecords(records[..n]);
      var before := set k | 0 <= k < n && records[..n][k].port22 == Open;
      var after := set k | 0 <= k < |records| && records[k].port22 == Open;
      if records[n].port22 == Open {
        assert after == before + {n};
      } else {
        assert after == before;
      }
    }
  }

  /** When every port check fails, every record is Closed and the open counter is zero. */
  lemma {:induction false} AllChecksFail(regions: seq<RegionInstances>, probe: string -> bool)
    requires forall ip :: !probe(ip)
    ensures CountOpen(AllRecords(regions, probe)) == 0
    ensures forall k :: 0 <= k < |AllRecords(regions, probe)| ==> AllRecords(regions, probe)[k].port22 == Closed
  {
    var records := AllRecords(regions, probe);
    AllRecordsStatus(regions, probe);
    CountOpenIsOpenRecords(records);
    assert (set k | 0 <= k < |records| && records[k].port22 == Open) == {};
  }

  /**
   * Two regions: r1 with one addressed instance whose check succeeds, r2 with
   * one instance without an address.
   */
  lemma TwoRegionRun(probe: string -> bool)
    requires probe("1.2.3.4")
    ensures var regions := [RegionInstances("r1", [Instance("i-1", None, Some("1.2.3.4"))]),
                            RegionInstances("r2", [Instance("i-2", None, None)])];
            && TotalInstances(regions) == 2
            && CountOpen(AllRecords(regions, probe)) == 1
            && AllRecords(regions, probe) == [Record("r1", "N/A", "-", "1.2.3.4", Open, "i-1"),
                                             Record("r2", "N/A", "-", "N/A", Closed, "i-2")]
  {
    var regions := [RegionInstances("r1", [Instance("i-1", None, Some("1.2.3.4"))]),
                    RegionInstances("r2", [Instance("i-2", None, None)])];
    var r1 := Record("r1", "N/A", "-", "1.2.3.4", Open, "i-1");
    var r2 := Record("r2", "N/A", "-", "N/A", Closed, "i-2");
    assert RecordOf("r1", regions[0].instances[0], probe) == r1;
    assert RecordOf("r2", regions[1].instances[0], probe) == r2;
    assert RegionRecords("r1", regions[0].instances, probe) == [r1] by {
      assert regions[0].instances[..0] == [];
    }
    assert RegionRecords("r2", regions[1].instances, probe) == [r2] by {
      assert regions[1].instances[..0] == [];
    }
    assert regions[..1] == [regions[0]];
    assert AllRecords(regions[..1], probe) == [r1] by {
      assert regions[..1][..0] == [];
    }
    assert TotalInstances(regions[..1]) == 1 by {
      assert regions[..1][..0] == [];
    }
    assert AllRecords(regions, probe) == [r1, r2];
    SnocSteps([r1], r2);
    SnocSteps([], r1);
    assert [] + [r1] == [r1];
  }
}
