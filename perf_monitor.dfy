/**
 * The sampling engine of `perf_monitor.py`: snapshot dictionaries and their
 * averaging, the `SystemMonitor` object (its lifecycle, one pass of its
 * sampling loop, the frame-rate cell and the final gap repair), and the
 * reader that feeds frame rates parsed from glretrace's output into it.
 * Clock readings, psutil readings and the lines glretrace prints are
 * parameters.
 */
module PerfMonitor {
  import opened Wrappers
  import opened PyText
  import Gpu
  import FpsPattern

  // ---------------------------------------------------------------- snapshots

  /** A dictionary value: a number (`int` or `float`), a string, or `None`. */
  datatype Value = Num(x: real) | Str(s: string) | Null

  /** A snapshot dictionary, keyed by metric name. */
  type Snapshot = map<string, Value>

  /** The column order the CSV writer is given. */
  const CsvHeaders: seq<string> := [
    "timestamp", "elapsed_time_s", "fps", "cpu_total_usage_percent",
    "cpu_load_avg_1m", "cpu_freq_current_mhz", "ram_usage_percent",
    "cpu_per_core_usage_percent", "gpu_usage_percent", "gpu_mem_used_mb",
    "gpu_power_draw_w", "gpu_temp_c"]

  /** What psutil reports in one `get_snapshot` call; `perCoreText` is `str()` of each per-core value. */
  datatype CpuReading = CpuReading(
    totalPercent: real,
    perCoreText: seq<string>,
    loadAvg1m: real,
    freqMhz: Option<real>,
    ramPercent: real)

  function OptNum(v: Option<real>): Value
  {
    if v.Some? then Num(v.value) else Null
  }

  /** `','.join(parts)`. */
  function JoinComma(parts: seq<string>): string
    decreases |parts|
  {
    if parts == [] then [] else if |parts| == 1 then parts[0] else parts[0] + [','] + JoinComma(parts[1..])
  }

  /** The dictionary `get_snapshot` builds from one CPU/RAM reading and the GPU monitor's metrics. */
  function Capture(timestamp: string, cpu: CpuReading, gpu: Gpu.Metrics): Snapshot
  {
    map[
      "timestamp" := Str(timestamp),
      "cpu_total_usage_percent" := Num(cpu.totalPercent),
      "cpu_load_avg_1m" := Num(cpu.loadAvg1m),
      "cpu_freq_current_mhz" := OptNum(cpu.freqMhz),
      "ram_usage_percent" := Num(cpu.ramPercent),
      "cpu_per_core_usage_percent" := Str(JoinComma(cpu.perCoreText)),
      "gpu_usage_percent" := OptNum(gpu.usagePercent),
      "gpu_mem_used_mb" := OptNum(gpu.memUsedMb),
      "gpu_power_draw_w" := OptNum(gpu.powerDrawW),
      "gpu_temp_c" := OptNum(gpu.tempC)]
  }

  /** A row of `collected_data`: the captured snapshot plus the elapsed time and frame rate the loop stamps on it. */
  datatype Row = Row(reading: Snapshot, elapsed: real, fps: real)

  /** The row as the dictionary the source keeps. */
  function RowDict(r: Row): Snapshot
  {
    r.reading["elapsed_time_s" := Num(r.elapsed)]["fps" := Num(r.fps)]
  }

  /** A captured row has exactly the CSV columns as keys, and its elapsed time and frame rate are numbers. */
  lemma RowKeysAreCsvHeaders(timestamp: string, cpu: CpuReading, gpu: Gpu.Metrics, elapsed: real, fps: real)
    ensures var d := RowDict(Row(Capture(timestamp, cpu, gpu), elapsed, fps));
            && d.Keys == set h | h in CsvHeaders
            && d["elapsed_time_s"] == Num(elapsed) && d["fps"] == Num(fps)
  {
    var d := RowDict(Row(Capture(timestamp, cpu, gpu), elapsed, fps));
    var hs := set h | h in CsvHeaders;
    assert forall h :: h in CsvHeaders ==> h in d;
    assert forall h :: h in d ==> h in CsvHeaders;
  }

  // ---------------------------------------------------------------- averaging

  /** The number `key` holds in `snap`; a missing key, a string and `None` hold none. */
  function NumAt(snap: Snapshot, key: string): Option<real>
  {
    if key in snap && snap[key].Num? then Some(snap[key].x) else None
  }

  /** Sum of the numbers `key` holds across the snapshots. */
  function Total(snaps: seq<Snapshot>, key: string): real
    decreases |snaps|
  {
    if snaps == [] then 0.0
    else Total(snaps[..|snaps| - 1], key) + NumAt(snaps[|snaps| - 1], key).GetOr(0.0)
  }

  /** How many snapshots hold a number at `key`. */
  function Count(snaps: seq<Snapshot>, key: string): nat
    decreases |snaps|
  {
    if snaps == [] then 0
    else Count(snaps[..|snaps| - 1], key) + (if NumAt(snaps[|snaps| - 1], key).Some? then 1 else 0)
  }

  /** The keys some snapshot holds a number at. */
  function NumericKeys(snaps: seq<Snapshot>): set<string>
    decreases |snaps|
  {
    if snaps == [] then {} else NumericKeys(snaps[..|snaps| - 1]) + SnapKeys(snaps[|snaps| - 1])
  }

  /** The keys one snapshot holds a number at. */
  function SnapKeys(snap: Snapshot): set<string>
  {
    set k | k in snap && snap[k].Num?
  }

  /** `get_averaged_snapshot`, as a function: for each key some snapshot holds a number at, the sum of those numbers divided by their count when it is positive. */
  function Averaged(snaps: seq<Snapshot>): map<string, real>
  {
    map k | k in NumericKeys(snaps) :: if Count(snaps, k) > 0 then Total(snaps, k) / (Count(snaps, k) as real) else Total(snaps, k)
  }

  /** The keys with numbers are the keys counted at least once. */
  lemma {:induction false} NumericKeysCounted(snaps: seq<Snapshot>, key: string)
    ensures key in NumericKeys(snaps) <==> Count(snaps, key) > 0
    decreases |snaps|
  {
    if snaps != [] {
      NumericKeysCounted(snaps[..|snaps| - 1], key);
    }
  }

  /** A key is counted exactly when some snapshot holds a number at it. */
  lemma {:induction false} CountPositive(snaps: seq<Snapshot>, key: string)
    ensures Count(snaps, key) > 0 <==> exists i :: 0 <= i < |snaps| && NumAt(snaps[i], key).Some?
    decreases |snaps|
  {
    if snaps != [] {
      var init := snaps[..|snaps| - 1];
      CountPositive(init, key);
      if exists i :: 0 <= i < |init| && NumAt(init[i], key).Some? {
        var i :| 0 <= i < |init| && NumAt(init[i], key).Some?;
        assert snaps[i] == init[i];
      }
      if exists i :: 0 <= i < |snaps| && NumAt(snaps[i], key).Some? {
        var i :| 0 <= i < |snaps| && NumAt(snaps[i], key).Some?;
        if i < |init| {
          assert init[i] == snaps[i];
        }
      }
    }
  }

  /** The averaged snapshot has a key exactly when some snapshot holds a number at it. */
  lemma AveragedKeys(snaps: seq<Snapshot>, key: string)
    ensures key in Averaged(snaps) <==> exists i :: 0 <= i < |snaps| && NumAt(snaps[i], key).Some?
  {
    CountPositive(snaps, key);
    NumericKeysCounted(snaps, key);
  }

  /** Each averaged value is the mean of the numbers held at its key: times their count it gives their sum. */
  lemma AveragedIsMean(snaps: seq<Snapshot>, key: string)
    requires key in Averaged(snaps)
    ensures var c := Count(snaps, key) as real; c > 0.0 && Averaged(snaps)[key] * c == Total(snaps, key)
  {
    NumericKeysCounted(snaps, key);
    var c := Count(snaps, key);
    assert Averaged(snaps)[key] == Total(snaps, key) / (c as real);
    MeanTimesCount(Averaged(snaps)[key], Total(snaps, key), c);
  }

  lemma MeanTimesCount(a: real, t: real, c: nat)
    requires c > 0 && a == t / (c as real)
    ensures a * (c as real) == t
  {
  }

  /** No snapshots give an empty average. */
  lemma AveragedEmpty()
    ensures Averaged([]) == map[]
  {
  }

  lemma {:induction false} TotalAppend(a: seq<Snapshot>, b: seq<Snapshot>, key: string)
    ensures Total(a + b, key) == Total(a, key) + Total(b, key)
    ensures Count(a + b, key) == Count(a, key) + Count(b, key)
    decreases |b|
  {
    if b == [] {
      assert a + b == a;
    } else {
      var b0 := b[..|b| - 1];
      assert (a + b)[..|a + b| - 1] == a + b0;
      TotalAppend(a, b0, key);
    }
  }

  /** A snapshot without any number (only strings and `None`) changes no average: `None` is skipped rather than counted as zero. */
  lemma AveragedSkipsNonNumeric(a: seq<Snapshot>, t: Snapshot, b: seq<Snapshot>)
    requires forall k :: k in t ==> !t[k].Num?
    ensures Averaged(a + [t] + b) == Averaged(a + b)
  {
    forall key
      ensures Total(a + [t] + b, key) == Total(a + b, key) && Count(a + [t] + b, key) == Count(a + b, key)
      ensures key in NumericKeys(a + [t] + b) <==> key in NumericKeys(a + b)
    {
      TotalAppend(a + [t], b, key);
      TotalAppend(a, [t], key);
      TotalAppend(a, b, key);
      assert [t][..0] == [];
      NumericKeysCounted(a + [t] + b, key);
      NumericKeysCounted(a + b, key);
    }
    assert NumericKeys(a + [t] + b) == NumericKeys(a + b);
  }

  /** Numbers that all lie within `[lo, hi]` average to a value within `[lo, hi]`. */
  lemma {:induction false} TotalBounds(snaps: seq<Snapshot>, key: string, lo: real, hi: real)
    requires forall i :: 0 <= i < |snaps| && NumAt(snaps[i], key).Some? ==> lo <= NumAt(snaps[i], key).value <= hi
    ensures lo * (Count(snaps, key) as real) <= Total(snaps, key) <= hi * (Count(snaps, key) as real)
    decreases |snaps|
  {
    if snaps != [] {
      var init, last := snaps[..|snaps| - 1], NumAt(snaps[|snaps| - 1], key);
      forall i | 0 <= i < |init| && NumAt(init[i], key).Some?
        ensures lo <= NumAt(init[i], key).value <= hi
      {
        assert init[i] == snaps[i];
      }
      TotalBounds(init, key, lo, hi);
      var c, t := Count(init, key) as real, Total(init, key);
      if last.Some? {
        assert Count(snaps, key) as real == c + 1.0 && Total(snaps, key) == t + last.value;
        BoundsStep(lo, hi, c, t, last.value);
      } else {
        assert Count(snaps, key) as real == c && Total(snaps, key) == t;
      }
    }
  }

  /** One more number within `[lo, hi]` keeps a sum of `c` such numbers within `[lo * c, hi * c]`. */
  lemma BoundsStep(lo: real, hi: real, c: real, t: real, v: real)
    requires lo * c <= t <= hi * c && lo <= v <= hi
    ensures lo * (c + 1.0) <= t + v <= hi * (c + 1.0)
  {
    assert lo * (c + 1.0) == lo * c + lo && hi * (c + 1.0) == hi * c + hi;
  }

  /** The mean lies between the smallest and the largest of the averaged numbers. */
  lemma AveragedBounds(snaps: seq<Snapshot>, key: string, lo: real, hi: real)
    requires key in Averaged(snaps)
    requires forall i :: 0 <= i < |snaps| && NumAt(snaps[i], key).Some? ==> lo <= NumAt(snaps[i], key).value <= hi
    ensures lo <= Averaged(snaps)[key] <= hi
  {
    var a, c, t := Averaged(snaps)[key], Count(snaps, key) as real, Total(snaps, key);
    TotalBounds(snaps, key, lo, hi);
    AveragedIsMean(snaps, key);
    ScaledBounds(lo, a, hi, c, t);
  }

  lemma ScaledBounds(lo: real, x: real, hi: real, c: real, t: real)
    requires c > 0.0 && x * c == t && lo * c <= t <= hi * c
    ensures lo <= x <= hi
  {
  }

  /** The averaging example: 10, `None` and 20 average to 15, not 10. */
  lemma AveragedExample()
    ensures Averaged([map["x" := Num(10.0)], map["x" := Null], map["x" := Num(20.0)]]) == map["x" := 15.0]
  {
    var m10, mNone, m20 := map["x" := Num(10.0)], map["x" := Null], map["x" := Num(20.0)];
    var s1 := [m10];
    var s2 := s1 + [mNone];
    var s := s2 + [m20];
    assert s[..2] == s2 && s2[..1] == s1 && s1[..0] == [];
    assert SnapKeys(m10) == {"x"} && SnapKeys(mNone) == {} && SnapKeys(m20) == {"x"};
    assert NumAt(m10, "x") == Some(10.0);
    assert Count(s1, "x") == Count(s1[..0], "x") + 1;
    assert NumericKeys(s1) == NumericKeys(s1[..0]) + SnapKeys(m10);
    assert Total(s1, "x") == 10.0 && Count(s1, "x") == 1 && NumericKeys(s1) == {"x"};
    assert Total(s2, "x") == 10.0 && Count(s2, "x") == 1 && NumericKeys(s2) == {"x"};
    assert Total(s, "x") == 30.0 && Count(s, "x") == 2 && NumericKeys(s) == {"x"};
    assert Averaged(s).Keys == {"x"} && Averaged(s)["x"] == 15.0;
    assert s == [m10, mNone, m20];
  }

  /** `defaultdict` lookup: the stored value, or the type's zero. */
  function GetOr<V>(m: map<string, V>, key: string, zero: V): V
  {
    if key in m then m[key] else zero
  }

  /** The sums of the inner loop of `get_averaged_snapshot` once every key of `snap` outside `keys` was visited. */
  ghost predicate SummedExcept(sums: map<string, real>, snap: Snapshot, keys: set<string>, sums': map<string, real>)
  {
    && sums'.Keys == sums.Keys + (SnapKeys(snap) - keys)
    && forall k :: k in sums' ==> sums'[k] == GetOr(sums, k, 0.0) + (if k in keys then 0.0 else NumAt(snap, k).GetOr(0.0))
  }

  /** The counts of the inner loop of `get_averaged_snapshot` once every key of `snap` outside `keys` was visited. */
  ghost predicate CountedExcept(counts: map<string, nat>, snap: Snapshot, keys: set<string>, counts': map<string, nat>)
  {
    && counts'.Keys == counts.Keys + (SnapKeys(snap) - keys)
    && forall k :: k in counts' ==> counts'[k] == GetOr(counts, k, 0) + (if k !in keys && NumAt(snap, k).Some? then 1 else 0)
  }

  /** Adding the number at one more key keeps `SummedExcept`. */
  lemma SumStep(sums: map<string, real>, snap: Snapshot, keys: set<string>, sums': map<string, real>, key: string, x: real)
    requires key in keys && NumAt(snap, key) == Some(x) && SummedExcept(sums, snap, keys, sums')
    ensures SummedExcept(sums, snap, keys - {key}, sums'[key := GetOr(sums', key, 0.0) + x])
  {
    var s2 := sums'[key := GetOr(sums', key, 0.0) + x];
    assert key in SnapKeys(snap);
    assert key !in sums' ==> key !in sums;
    forall k | k in s2
      ensures s2[k] == GetOr(sums, k, 0.0) + (if k in keys - {key} then 0.0 else NumAt(snap, k).GetOr(0.0))
    {
      if k != key {
        assert s2[k] == sums'[k];
      }
    }
  }

  /** Counting one more key that holds a number keeps `CountedExcept`. */
  lemma CountStep(counts: map<string, nat>, snap: Snapshot, keys: set<string>, counts': map<string, nat>, key: string)
    requires key in keys && NumAt(snap, key).Some? && CountedExcept(counts, snap, keys, counts')
    ensures CountedExcept(counts, snap, keys - {key}, counts'[key := GetOr(counts', key, 0) + 1])
  {
    var c2 := counts'[key := GetOr(counts', key, 0) + 1];
    assert key in SnapKeys(snap);
    assert key !in counts' ==> key !in counts;
    forall k | k in c2
      ensures c2[k] == GetOr(counts, k, 0) + (if k !in keys - {key} && NumAt(snap, k).Some? then 1 else 0)
    {
      if k != key {
        assert c2[k] == counts'[k];
      }
    }
  }

  /** Skipping a key that holds no number keeps both. */
  lemma SkipStep(sums: map<string, real>, counts: map<string, nat>, snap: Snapshot, keys: set<string>,
                 sums': map<string, real>, counts': map<string, nat>, key: string)
    requires key in keys && NumAt(snap, key).None?
    requires SummedExcept(sums, snap, keys, sums') && CountedExcept(counts, snap, keys, counts')
    ensures SummedExcept(sums, snap, keys - {key}, sums') && CountedExcept(counts, snap, keys - {key}, counts')
  {
    assert key !in SnapKeys(snap);
  }

  /** The inner loop of `get_averaged_snapshot`: every number `snap` holds is added to its key's sum and counted. */
  method AddSnapshot(sums: map<string, real>, counts: map<string, nat>, snap: Snapshot)
    returns (sums': map<string, real>, counts': map<string, nat>)
    ensures sums'.Keys == sums.Keys + SnapKeys(snap) && counts'.Keys == counts.Keys + SnapKeys(snap)
    ensures forall k :: k in sums' ==> sums'[k] == GetOr(sums, k, 0.0) + NumAt(snap, k).GetOr(0.0)
    ensures forall k :: k in counts' ==> counts'[k] == GetOr(counts, k, 0) + (if NumAt(snap, k).Some? then 1 else 0)
  {
    sums', counts' := sums, counts;
    var keys := snap.Keys;
    assert SnapKeys(snap) - keys == {};
    while keys != {}
      invariant keys <= snap.Keys
      invariant SummedExcept(sums, snap, keys, sums') && CountedExcept(counts, snap, keys, counts')
      decreases keys
    {
      var key :| key in keys;
      var value := snap[key];
      if value.Num? {
        SumStep(sums, snap, keys, sums', key, value.x);
        CountStep(counts, snap, keys, counts', key);
        sums' := sums'[key := GetOr(sums', key, 0.0) + value.x];
        counts' := counts'[key := GetOr(counts', key, 0) + 1];
      } else {
        SkipStep(sums, counts, snap, keys, sums', counts', key);
      }
      keys := keys - {key};
    }
    assert SnapKeys(snap) - keys == SnapKeys(snap);
  }

  /** `get_averaged_snapshot`: accumulate sums and counts per key over every snapshot, then divide each sum by its count. */
  method GetAveragedSnapshot(snapshots: seq<Snapshot>) returns (avg: map<string, real>)
    ensures avg == Averaged(snapshots)
  {
    var sums: map<string, real> := map[];
    var counts: map<string, nat> := map[];
    var i := 0;
    while i < |snapshots|
      invariant 0 <= i <= |snapshots|
      invariant Accumulated(snapshots[..i], sums, counts)
    {
      var sums', counts' := AddSnapshot(sums, counts, snapshots[i]);
      AccumulateStep(snapshots[..i], snapshots[i], sums, counts, sums', counts');
      assert snapshots[..i] + [snapshots[i]] == snapshots[..i + 1];
      sums, counts := sums', counts';
      i := i + 1;
    }
    assert snapshots[..i] == snapshots;
    avg := sums;
    var pending := sums.Keys;
    while pending != {}
      invariant pending <= sums.Keys && avg.Keys == sums.Keys
      invariant forall k :: k in avg ==>
                  avg[k] == if k in pending || counts[k] == 0 then sums[k] else sums[k] / (counts[k] as real)
      decreases pending
    {
      var key :| key in pending;
      if counts[key] > 0 {
        avg := avg[key := sums[key] / (counts[key] as real)];
      }
      pending := pending - {key};
    }
    DividedIsAveraged(snapshots, sums, counts, avg);
  }

  /** `sums` and `counts` hold the total and the count of every key some snapshot of `snaps` holds a number at. */
  ghost predicate Accumulated(snaps: seq<Snapshot>, sums: map<string, real>, counts: map<string, nat>)
  {
    && sums.Keys == counts.Keys == NumericKeys(snaps)
    && (forall k :: k in sums ==> sums[k] == Total(snaps, k))
    && (forall k :: k in counts ==> counts[k] == Count(snaps, k))
    && (forall k :: k !in counts ==> Total(snaps, k) == 0.0 && Count(snaps, k) == 0)
  }

  /** Adding one more snapshot as `AddSnapshot` does keeps the sums and counts those of all snapshots so far. */
  lemma AccumulateStep(snaps: seq<Snapshot>, s: Snapshot, sums: map<string, real>, counts: map<string, nat>,
                       sums': map<string, real>, counts': map<string, nat>)
    requires Accumulated(snaps, sums, counts)
    requires sums'.Keys == sums.Keys + SnapKeys(s) && counts'.Keys == counts.Keys + SnapKeys(s)
    requires forall k :: k in sums' ==> sums'[k] == GetOr(sums, k, 0.0) + NumAt(s, k).GetOr(0.0)
    requires forall k :: k in counts' ==> counts'[k] == GetOr(counts, k, 0) + (if NumAt(s, k).Some? then 1 else 0)
    ensures Accumulated(snaps + [s], sums', counts')
  {
    var all := snaps + [s];
    assert all[..|all| - 1] == snaps && all[|all| - 1] == s;
    assert NumericKeys(all) == NumericKeys(snaps) + SnapKeys(s);
    forall k ensures Total(all, k) == GetOr(sums, k, 0.0) + NumAt(s, k).GetOr(0.0) {
      assert Total(all, k) == Total(snaps, k) + NumAt(s, k).GetOr(0.0);
    }
    forall k ensures Count(all, k) == GetOr(counts, k, 0) + (if NumAt(s, k).Some? then 1 else 0) {
      assert Count(all, k) == Count(snaps, k) + (if NumAt(s, k).Some? then 1 else 0);
    }
    forall k | k !in counts' ensures NumAt(s, k).None? {
      assert k !in SnapKeys(s);
    }
  }

  /** Dividing every accumulated sum by its positive count gives the averaged snapshot. */
  lemma DividedIsAveraged(snaps: seq<Snapshot>, sums: map<string, real>, counts: map<string, nat>, avg: map<string, real>)
    requires Accumulated(snaps, sums, counts)
    requires avg.Keys == sums.Keys
    requires forall k :: k in avg ==> avg[k] == if counts[k] == 0 then sums[k] else sums[k] / (counts[k] as real)
    ensures avg == Averaged(snaps)
  {
    assert avg.Keys == Averaged(snaps).Keys;
  }

  // ---------------------------------------------------------------- gap repair

  /** The frame rate of the last row that has a positive one. */
  function LastPositiveFps(rows: seq<Row>): (r: Option<real>)
    ensures r.Some? ==> r.value > 0.0
    decreases |rows|
  {
    if rows == [] then None
    else if rows[|rows| - 1].fps > 0.0 then Some(rows[|rows| - 1].fps)
    else LastPositiveFps(rows[..|rows| - 1])
  }

  /** The value `fill_final_fps` writes into zero rows: the last positive frame rate, else the current one (`None or current_fps` is `current_fps`). */
  function FillValue(rows: seq<Row>, current: real): real
  {
    LastPositiveFps(rows).GetOr(current)
  }

  /** Every row whose frame rate is exactly zero gets `v`. */
  function FillZeros(rows: seq<Row>, v: real): (r: seq<Row>)
  {
    seq(|rows|, i requires 0 <= i < |rows| => if rows[i].fps == 0.0 then rows[i].(fps := v) else rows[i])
  }

  /** The collected rows after `fill_final_fps`. */
  function Filled(rows: seq<Row>, current: real): seq<Row>
  {
    FillZeros(rows, FillValue(rows, current))
  }

  /** The last positive frame rate is the one of the row with a positive rate that only non-positive rows follow. */
  lemma {:induction false} LastPositiveAt(rows: seq<Row>, k: nat)
    requires k < |rows| && rows[k].fps > 0.0
    requires forall j :: k < j < |rows| ==> rows[j].fps <= 0.0
    ensures LastPositiveFps(rows) == Some(rows[k].fps)
    decreases |rows|
  {
    if k < |rows| - 1 {
      var init := rows[..|rows| - 1];
      assert forall j :: k < j < |init| ==> init[j] == rows[j];
      LastPositiveAt(init, k);
    }
  }

  /** There is no last positive frame rate when no row has one. */
  lemma {:induction false} NoLastPositive(rows: seq<Row>)
    ensures LastPositiveFps(rows).None? <==> forall j :: 0 <= j < |rows| ==> rows[j].fps <= 0.0
    decreases |rows|
  {
    if rows != [] {
      var init := rows[..|rows| - 1];
      NoLastPositive(init);
      assert forall j :: 0 <= j < |init| ==> init[j] == rows[j];
    }
  }

  /** Gap repair keeps the number of rows, the snapshot and elapsed time of every row, and every row whose frame rate is not zero. */
  lemma FillKeeps(rows: seq<Row>, current: real)
    ensures |Filled(rows, current)| == |rows|
    ensures forall i :: 0 <= i < |rows| ==>
              && Filled(rows, current)[i].reading == rows[i].reading
              && Filled(rows, current)[i].elapsed == rows[i].elapsed
              && (rows[i].fps != 0.0 ==> Filled(rows, current)[i] == rows[i])
  {
  }

  /** When some row has a positive frame rate, every zero row takes the rate of the last such row. */
  lemma FillFromLastPositive(rows: seq<Row>, current: real, k: nat)
    requires k < |rows| && rows[k].fps > 0.0
    requires forall j :: k < j < |rows| ==> rows[j].fps <= 0.0
    ensures forall i :: 0 <= i < |rows| && rows[i].fps == 0.0 ==> Filled(rows, current)[i].fps == rows[k].fps
  {
    LastPositiveAt(rows, k);
  }

  /** When no row has a positive frame rate, zero rows take the current rate; the rows stay as they were exactly when that rate is zero or there is no zero row. */
  lemma FillWithoutPositive(rows: seq<Row>, current: real)
    requires forall j :: 0 <= j < |rows| ==> rows[j].fps <= 0.0
    ensures forall i :: 0 <= i < |rows| && rows[i].fps == 0.0 ==> Filled(rows, current)[i].fps == current
    ensures Filled(rows, current) == rows <==> current == 0.0 || forall i :: 0 <= i < |rows| ==> rows[i].fps != 0.0
  {
    NoLastPositive(rows);
    var f := Filled(rows, current);
    if current == 0.0 || forall i :: 0 <= i < |rows| ==> rows[i].fps != 0.0 {
      assert forall i :: 0 <= i < |rows| ==> f[i] == rows[i];
    }
    if f == rows && current != 0.0 {
      forall i | 0 <= i < |rows| ensures rows[i].fps != 0.0 {
        assert f[i] == rows[i];
      }
    }
  }

  /** After repair a zero frame rate is left only when there was nothing to fill with: no positive row and a current rate of zero. */
  lemma FillLeavesNoZero(rows: seq<Row>, current: real)
    ensures (exists i :: 0 <= i < |rows| && Filled(rows, current)[i].fps == 0.0) ==>
              (forall j :: 0 <= j < |rows| ==> rows[j].fps <= 0.0) && current == 0.0
  {
    NoLastPositive(rows);
  }

  /** Repairing twice is the same as repairing once. */
  lemma FillIdempotent(rows: seq<Row>, current: real)
    ensures Filled(Filled(rows, current), current) == Filled(rows, current)
  {
    var f := Filled(rows, current);
    var v := FillValue(rows, current);
    NoLastPositive(rows);
    if v != 0.0 {
      assert forall i :: 0 <= i < |f| ==> f[i].fps != 0.0;
    } else {
      assert f == rows;
    }
  }

  /** Rows carrying only the given frame rates. */
  function RowsWithFps(fps: seq<real>): seq<Row>
  {
    seq(|fps|, i requires 0 <= i < |fps| => Row(map[], i as real, fps[i]))
  }

  function FpsColumn(rows: seq<Row>): seq<real>
  {
    seq(|rows|, i requires 0 <= i < |rows| => rows[i].fps)
  }

  /** The repair example: 0, 0, 5, 0, 8, 0 becomes 8, 8, 5, 8, 8, 8 whatever the current rate; 0, 0, 0 with a current rate of 0 stays. */
  lemma FillExamples(current: real)
    ensures FpsColumn(Filled(RowsWithFps([0.0, 0.0, 5.0, 0.0, 8.0, 0.0]), current)) == [8.0, 8.0, 5.0, 8.0, 8.0, 8.0]
    ensures FpsColumn(Filled(RowsWithFps([0.0, 0.0, 0.0]), 0.0)) == [0.0, 0.0, 0.0]
  {
    var rows := RowsWithFps([0.0, 0.0, 5.0, 0.0, 8.0, 0.0]);
    LastPositiveAt(rows, 4);
    var zeros := RowsWithFps([0.0, 0.0, 0.0]);
    NoLastPositive(zeros);
  }

  /** Elapsed times that never decrease, within `[0, bound]`. */
  ghost predicate ElapsedOrdered(rows: seq<Row>, bound: real) {
    && (forall i :: 0 <= i < |rows| ==> 0.0 <= rows[i].elapsed <= bound)
    && (forall i, j :: 0 <= i < j < |rows| ==> rows[i].elapsed <= rows[j].elapsed)
  }

  // ---------------------------------------------------------------- the monitor

  /**
   * `SystemMonitor`. `hasThread` stands for `_thread is not None`, and
   * `looping` for the sampling thread being inside its `while` loop; the
   * ghost `clock` is the latest monotonic clock reading, and `runFrom` the
   * first row of the current run.
   */
  class SystemMonitor {
    const intervalSec: real
    const gpuVendor: Gpu.Vendor
    var isRunning: bool
    var hasThread: bool
    var looping: bool
    var collectedData: seq<Row>
    var startTime: Option<real>
    var currentFps: real
    ghost var clock: real
    ghost var runFrom: nat

    /** The flag and the thread come and go together; the rows of the current run have elapsed times that never decrease and never exceed the clock. */
    ghost predicate Valid()
      reads this
    {
      && (isRunning <==> hasThread)
      && (looping ==> isRunning)
      && runFrom <= |collectedData|
      && (startTime.Some? ==> startTime.value <= clock && ElapsedOrdered(collectedData[runFrom..], clock - startTime.value))
      && (looping ==> startTime.Some?)
    }

    /** `SystemMonitor(interval_sec)`: stopped, no rows, a frame rate of 0, and the GPU monitor detection picks for the host. */
    constructor (intervalSec: real, host: Gpu.HostFacts)
      ensures Valid()
      ensures this.intervalSec == intervalSec && gpuVendor == Gpu.Detect(host)
      ensures !isRunning && !hasThread && !looping
      ensures collectedData == [] && startTime == None && currentFps == 0.0
    {
      this.intervalSec := intervalSec;
      gpuVendor := Gpu.Detect(host);
      isRunning, hasThread, looping := false, false, false;
      collectedData := [];
      startTime := None;
      currentFps := 0.0;
      clock := 0.0;
      runFrom := 0;
    }

    /** `update_fps`: the frame-rate cell takes the new value, whatever the monitor's state. */
    method UpdateFps(newFps: real)
      requires Valid()
      modifies this`currentFps
      ensures Valid() && currentFps == newFps
    {
      currentFps := newFps;
    }

    /**
     * `start`: nothing when a thread exists; otherwise the flag is raised and
     * a sampling thread started, whose first act is to record the monotonic
     * clock reading `now` as the start time.
     */
    method Start(now: real)
      requires Valid() && clock <= now
      modifies this
      ensures Valid()
      ensures old(hasThread) ==>
                && isRunning == old(isRunning) && hasThread && looping == old(looping)
                && startTime == old(startTime) && collectedData == old(collectedData)
      ensures !old(hasThread) ==> isRunning && hasThread && looping && startTime == Some(now)
      ensures collectedData == old(collectedData) && currentFps == old(currentFps)
    {
      if hasThread {
        return;
      }
      isRunning := true;
      hasThread := true;
      startTime := Some(now);
      clock := now;
      runFrom := |collectedData|;
      looping := true;
    }

    /**
     * One pass of `_monitor_loop` while `is_running`: capture at `loopStart`,
     * stamp the elapsed time since the start and the current frame rate,
     * append the row, and sleep for what is left of the interval once the
     * pass ends at `loopEnd`. `gpu` is `None` when the GPU monitor raised
     * (a malformed AMD counter): the exception ends the thread and nothing is
     * appended.
     */
    method LoopIteration(loopStart: real, timestamp: string, cpu: CpuReading, gpu: Option<Gpu.Metrics>, loopEnd: real)
      returns (sleep: Option<real>)
      requires Valid() && looping && clock <= loopStart <= loopEnd
      modifies this`collectedData, this`clock, this`looping
      ensures Valid()
      ensures gpu.None? ==> !looping && collectedData == old(collectedData) && sleep.None?
      ensures gpu.Some? ==>
                && looping
                && collectedData == old(collectedData) + [Row(Capture(timestamp, cpu, gpu.value), loopStart - startTime.value, currentFps)]
                && (sleep.Some? <==> intervalSec - (loopEnd - loopStart) > 0.0)
                && (sleep.Some? ==> sleep.value == intervalSec - (loopEnd - loopStart))
    {
      if gpu.None? {
        looping := false;
        return None;
      }
      var row := Capture(timestamp, cpu, gpu.value);
      var elapsed := loopStart - startTime.value;
      var fps := currentFps;
      ghost var run := collectedData[runFrom..];
      collectedData := collectedData + [Row(row, elapsed, fps)];
      assert collectedData[runFrom..] == run + [Row(row, elapsed, fps)];
      clock := loopEnd;
      var loopDuration := loopEnd - loopStart;
      var sleepTime := intervalSec - loopDuration;
      if sleepTime > 0.0 {
        return Some(sleepTime);
      }
      return None;
    }

    /** `stop`: nothing when not running; otherwise the flag is lowered, the thread joined (its loop has ended) and dropped. */
    method Stop()
      requires Valid()
      modifies this`isRunning, this`hasThread, this`looping
      ensures Valid()
      ensures !old(isRunning) ==> isRunning == old(isRunning) && hasThread == old(hasThread) && looping == old(looping)
      ensures old(isRunning) ==> !isRunning && !hasThread && !looping
    {
      if !isRunning {
        return;
      }
      isRunning := false;
      looping := false;
      hasThread := false;
    }

    /** `fill_final_fps`: find the last positive frame rate scanning backwards, then write it (or the current rate) into every zero row. */
    method FillFinalFps()
      requires Valid()
      modifies this`collectedData
      ensures Valid()
      ensures collectedData == Filled(old(collectedData), currentFps)
    {
      var lastValidFps := LastValidFps(collectedData, currentFps);
      var n := |collectedData|;
      ghost var rows := collectedData;
      var k := 0;
      while k < n
        invariant 0 <= k <= n == |collectedData|
        invariant forall j :: 0 <= j < k ==> collectedData[j] == FillZeros(rows, lastValidFps)[j]
        invariant forall j :: k <= j < n ==> collectedData[j] == rows[j]
      {
        if collectedData[k].fps == 0.0 {
          collectedData := collectedData[k := collectedData[k].(fps := lastValidFps)];
        }
        k := k + 1;
      }
      if startTime.Some? {
        FillKeepsOrder(rows, runFrom, lastValidFps, clock - startTime.value);
      }
    }
  }

  /** The first half of `fill_final_fps`: scanning the rows backwards, the first positive frame rate met, else the current one. */
  method LastValidFps(rows: seq<Row>, current: real) returns (v: real)
    ensures v == FillValue(rows, current)
  {
    v := current;
    var i := |rows|;
    while i > 0
      invariant 0 <= i <= |rows|
      invariant forall j :: i <= j < |rows| ==> rows[j].fps <= 0.0
    {
      i := i - 1;
      if rows[i].fps > 0.0 {
        v := rows[i].fps;
        LastPositiveAt(rows, i);
        return;
      }
    }
    NoLastPositive(rows);
  }

  /** Changing frame rates keeps the elapsed-time order of a run. */
  lemma FillKeepsOrder(rows: seq<Row>, from: nat, v: real, bound: real)
    requires from <= |rows| && ElapsedOrdered(rows[from..], bound)
    ensures from <= |FillZeros(rows, v)| && ElapsedOrdered(FillZeros(rows, v)[from..], bound)
  {
    var f := FillZeros(rows, v);
    assert forall i :: from <= i < |rows| ==> f[i].elapsed == rows[i].elapsed;
    assert forall i :: 0 <= i < |rows| - from ==> f[from..][i].elapsed == rows[from..][i].elapsed;
  }

  // ---------------------------------------------------------------- glretrace output

  /** The frame rate after the reader has handled `lines`, starting from `fps`: each matching line overwrites it. */
  function FpsAfter(lines: seq<string>, fps: real): real
    decreases |lines|
  {
    if lines == [] then fps
    else
      match FpsPattern.FpsOf(lines[|lines| - 1])
      case Some(v) => v
      case None => FpsAfter(lines[..|lines| - 1], fps)
  }

  /** Lines without a match leave the frame rate as it was. */
  lemma {:induction false} FpsAfterNoMatch(lines: seq<string>, fps: real)
    requires forall j :: 0 <= j < |lines| ==> FpsPattern.FpsOf(lines[j]).None?
    ensures FpsAfter(lines, fps) == fps
    decreases |lines|
  {
    if lines != [] {
      var init := lines[..|lines| - 1];
      forall j | 0 <= j < |init| ensures FpsPattern.FpsOf(init[j]).None? {
        assert init[j] == lines[j];
      }
      FpsAfterNoMatch(init, fps);
    }
  }

  /** The last matching line decides the frame rate. */
  lemma {:induction false} FpsAfterLastMatch(lines: seq<string>, fps: real, k: nat)
    requires k < |lines| && FpsPattern.FpsOf(lines[k]).Some?
    requires forall j :: k < j < |lines| ==> FpsPattern.FpsOf(lines[j]).None?
    ensures FpsAfter(lines, fps) == FpsPattern.FpsOf(lines[k]).value
    decreases |lines|
  {
    if k < |lines| - 1 {
      var init := lines[..|lines| - 1];
      assert init[k] == lines[k];
      forall j | k < j < |init| ensures FpsPattern.FpsOf(init[j]).None? {
        assert init[j] == lines[j];
      }
      FpsAfterLastMatch(init, fps, k);
    }
  }

  /** Starting from a non-negative rate, the reader never publishes a negative one. */
  lemma {:induction false} FpsAfterNonNegative(lines: seq<string>, fps: real)
    requires fps >= 0.0
    ensures FpsAfter(lines, fps) >= 0.0
    decreases |lines|
  {
    if lines != [] {
      FpsPattern.FpsOfMatch(lines[|lines| - 1]);
      FpsAfterNonNegative(lines[..|lines| - 1], fps);
    }
  }

  /** The lines the reader echoes: each stripped, after the "[glretrace] " tag. */
  function Echoed(lines: seq<string>): seq<string>
    decreases |lines|
  {
    if lines == [] then [] else Echoed(lines[..|lines| - 1]) + ["[glretrace] " + Strip(lines[|lines| - 1])]
  }

  /** What one more line adds to the echo and does to the frame rate. */
  lemma ReaderStep(lines: seq<string>, i: nat, fps: real)
    requires i < |lines|
    ensures Echoed(lines[..i + 1]) == Echoed(lines[..i]) + ["[glretrace] " + Strip(lines[i])]
    ensures FpsAfter(lines[..i + 1], fps) ==
              if FpsPattern.FpsOf(lines[i]).Some? then FpsPattern.FpsOf(lines[i]).value else FpsAfter(lines[..i], fps)
  {
    assert lines[..i + 1][..i] == lines[..i];
  }

  /** `log_glretrace_output`: echo every line and push every frame rate found into the monitor. */
  method LogGlretraceOutput(lines: seq<string>, monitor: SystemMonitor) returns (echo: seq<string>)
    requires monitor.Valid()
    modifies monitor`currentFps
    ensures monitor.Valid()
    ensures echo == Echoed(lines)
    ensures monitor.currentFps == FpsAfter(lines, old(monitor.currentFps))
  {
    ghost var fps0 := monitor.currentFps;
    echo := [];
    var i := 0;
    while i < |lines|
      invariant 0 <= i <= |lines| && monitor.Valid()
      invariant echo == Echoed(lines[..i])
      invariant monitor.currentFps == FpsAfter(lines[..i], fps0)
    {
      var line := Strip(lines[i]);
      echo := echo + ["[glretrace] " + line];
      var fps := FpsPattern.FpsOf(lines[i]);
      if fps.Some? {
        monitor.UpdateFps(fps.value);
      }
      ReaderStep(lines, i, fps0);
      i := i + 1;
    }
    assert lines[..i] == lines;
  }
}
