/**
 * src/trackerd/tracker-utils.c: helpers of the indexing daemon. Suffix
 * stripping, the throttle and low-disk-space arithmetic and the pause
 * decision are pure; adding metadata updates a hash table in place.
 *
 * The daemon's global `tracker` struct and the config getters it calls are
 * passed in explicitly as a `Daemon` value; the result of statvfs and of
 * tracker_indexer_are_databases_too_big are parameters; g_usleep is
 * represented by the sleep it would be asked for.
 */
module DaemonUtils {
  import opened Ints
  import opened Wrappers

  /** g_str_has_suffix. */
  predicate HasSuffix(s: string, suffix: string) {
    |suffix| <= |s| && s[|s| - |suffix|..] == suffix
  }

  /** Whether `n` occurs in `h` starting at index `j`. */
  predicate OccursAt(h: string, n: string, j: int) {
    0 <= j && j + |n| <= |h| && h[j..j + |n|] == n
  }

  /** The highest start at or below `p` where `n` occurs in `h`, scanning downwards. */
  function LastOccurrenceFrom(h: string, n: string, p: nat): (r: Option<nat>)
    requires p + |n| <= |h|
    ensures r.Some? ==> r.value <= p && OccursAt(h, n, r.value)
    ensures forall j :: (if r.Some? then r.value else -1) < j <= p ==> !OccursAt(h, n, j)
    decreases p
  {
    if h[p..p + |n|] == n then Some(p)
    else if p == 0 then None
    else LastOccurrenceFrom(h, n, p - 1)
  }

  /**
   * g_strrstr: the start of the last occurrence of `n` in `h`, or NULL. An
   * empty needle is found at the start of the haystack.
   */
  function LastOccurrence(h: string, n: string): (r: Option<nat>)
    ensures |n| == 0 ==> r == Some(0)
    ensures |n| > 0 && r.Some? ==> OccursAt(h, n, r.value)
    ensures |n| > 0 ==> forall j :: (if r.Some? then r.value else -1) < j ==> !OccursAt(h, n, j)
  {
    if |n| == 0 then Some(0)
    else if |h| < |n| then None
    else LastOccurrenceFrom(h, n, |h| - |n|)
  }

  /**
   * tracker_get_radix_by_suffix as written: NULL for a NULL argument or a
   * string that does not end with the suffix, otherwise the part of the
   * string before the last occurrence of the suffix.
   */
  function RadixBySuffix(str: Option<string>, suffix: Option<string>): (r: Option<string>)
    ensures r.Some? <==> str.Some? && suffix.Some? && HasSuffix(str.value, suffix.value)
    ensures r.Some? && |suffix.value| > 0 ==> r.value + suffix.value == str.value
    ensures r.Some? && |suffix.value| == 0 ==> r.value == []
  {
    if str.None? || suffix.None? || !HasSuffix(str.value, suffix.value) then None
    else
      var s, suf := str.value, suffix.value;
      var at := LastOccurrence(s, suf);
      assert OccursAt(s, suf, |s| - |suf|);
      if at.None? then None
      else
        assert |suf| > 0 ==> at.value == |s| - |suf|;
        assert |suf| > 0 ==> s[..at.value] + suf == s;
        Some(s[..at.value])
  }

  /** Radix as evidently intended: the string with exactly its trailing suffix removed. */
  function RadixBySuffixCorrected(str: Option<string>, suffix: Option<string>): (r: Option<string>)
    ensures r.Some? <==> str.Some? && suffix.Some? && HasSuffix(str.value, suffix.value)
    ensures r.Some? ==> r.value + suffix.value == str.value
  {
    if str.None? || suffix.None? || !HasSuffix(str.value, suffix.value) then None
    else
      var s, suf := str.value, suffix.value;
      assert s[..|s| - |suf|] + suf == s;
      Some(s[..|s| - |suf|])
  }

  /** For every non-empty suffix the code as written and the corrected radix agree. */
  lemma RadixAgreesOnNonEmptySuffix(str: Option<string>, suffix: Option<string>)
    requires suffix.Some? ==> |suffix.value| > 0
    ensures RadixBySuffix(str, suffix) == RadixBySuffixCorrected(str, suffix)
  {
    var r := RadixBySuffix(str, suffix);
    if r.Some? {
      var s, suf := str.value, suffix.value;
      assert r.value == s[..|r.value|];
      assert |r.value| == |s| - |suf|;
    }
  }

  /** With an empty suffix the code as written returns "" rather than the whole string. */
  lemma RadixEmptySuffix(s: string)
    requires |s| > 0
    ensures RadixBySuffix(Some(s), Some("")) == Some("")
    ensures RadixBySuffixCorrected(Some(s), Some("")) == Some(s)
    ensures RadixBySuffix(Some(s), Some("")) != RadixBySuffixCorrected(Some(s), Some(""))
  {
    assert HasSuffix(s, "");
    assert s[..|s| - 0] == s;
  }

  /** The config values the helpers read through tracker_config_get_*. */
  datatype DaemonConfig = DaemonConfig(
    throttle: int32,
    lowDiskSpaceLimit: int32,
    disableIndexingOnBatteryInit: bool,
    disableIndexingOnBattery: bool)

  /** The fields of the global `tracker` struct the helpers read. */
  datatype Daemon = Daemon(
    pauseManual: bool,
    pauseBattery: bool,
    firstTimeIndex: bool,
    config: DaemonConfig)

  /**
   * tracker_throttle: the sleep requested of g_usleep, if any. The product
   * `throttle *= multiplier` is a gint; it is taken modulo 2^32 as the
   * machine does.
   */
  function Throttle(throttle: int32, multiplier: int32): (sleep: Option<int32>)
    ensures throttle < 1 ==> sleep.None?
    ensures sleep.Some? ==> sleep.value > 0 && (sleep.value - throttle * multiplier) % TWO_32 == 0
    ensures throttle >= 1 && -0x8000_0000 <= throttle * multiplier < 0x8000_0000 ==>
              (sleep.Some? <==> multiplier > 0) && (sleep.Some? ==> sleep.value == throttle * multiplier)
  {
    if throttle < 1 then None
    else
      var product := ToInt32(throttle * multiplier);
      if product > 0 then Some(product) else None
  }

  /** A larger multiplier never shortens the sleep, as long as the product fits in a gint. */
  lemma ThrottleMonotone(throttle: int32, m1: int32, m2: int32)
    requires 0 < m1 <= m2 && throttle >= 1 && throttle * m2 < 0x8000_0000
    ensures Throttle(throttle, m1).Some? && Throttle(throttle, m2).Some?
    ensures Throttle(throttle, m1).value <= Throttle(throttle, m2).value
  {
    MulMonotone(throttle, m1, m2);
  }

  lemma MulMonotone(a: int, b: int, c: int)
    requires a >= 1 && 0 < b <= c
    ensures 0 < a * b <= a * c
  {
    assert a * c == a * b + a * (c - b);
    assert a * (c - b) >= 0;
  }

  /** When the product overflows a gint it wraps: 65536 * 32768 asks for no sleep at all. */
  lemma ThrottleWraps()
    ensures Throttle(0x1_0000, 0x8000) == None
  {
    assert 0x1_0000 * 0x8000 == 0x8000_0000;
  }

  /** The two statvfs fields read. */
  datatype StatVfs = StatVfs(available: nat, blocks: nat)

  /**
   * The integer division read as a percentage: a / b, rounded down, is at
   * most `limit` exactly when a is below (limit + 1) * b.
   */
  lemma FloorDivAtMost(a: nat, b: nat, limit: int)
    requires b > 0
    ensures a / b <= limit <==> a < (limit + 1) * b
  {
    var q := a / b;
    assert a == q * b + a % b;
    if q <= limit {
      assert (limit + 1) * b == limit * b + b;
      assert q * b <= limit * b;
    } else {
      assert q >= limit + 1;
      assert q * b >= (limit + 1) * b;
    }
  }

  /**
   * tracker_is_low_diskspace: FALSE when the limit is below 1 or statvfs
   * fails (None); otherwise whether the available percentage, rounded
   * down, is at most the limit, that is, whether fewer than (limit + 1)
   * percent of the blocks are available.
   */
  function IsLowDiskSpace(limit: int32, st: Option<StatVfs>): (low: bool)
    requires st.Some? ==> st.value.blocks > 0
    ensures low <==>
      limit >= 1 && st.Some? && st.value.available * 100 < (limit as int + 1) * st.value.blocks
  {
    if limit < 1 then false
    else if st.None? then false
    else
      FloorDivAtMost(st.value.available * 100, st.value.blocks, limit as int);
      st.value.available * 100 / st.value.blocks <= limit
  }

  /** Raising the limit never turns a low-disk verdict off. */
  lemma LowDiskSpaceMonotone(l1: int32, l2: int32, st: Option<StatVfs>)
    requires st.Some? ==> st.value.blocks > 0
    requires l1 <= l2
    ensures IsLowDiskSpace(l1, st) ==> IsLowDiskSpace(l2, st)
  {
  }

  /** A full disk is always low once the check is enabled and statvfs succeeds. */
  lemma FullDiskIsLow(limit: int32, blocks: nat)
    requires limit >= 1 && blocks > 0
    ensures IsLowDiskSpace(limit, Some(StatVfs(0, blocks)))
  {
  }

  /**
   * tracker_should_pause_on_battery: FALSE unless pausing on battery is
   * enabled; then the "on battery init" setting during the first index and
   * the "on battery" setting otherwise.
   */
  function ShouldPauseOnBattery(d: Daemon): (pause: bool)
    ensures pause <==> d.pauseBattery && (if d.firstTimeIndex then d.config.disableIndexingOnBatteryInit
                                          else d.config.disableIndexingOnBattery)
  {
    if !d.pauseBattery then false
    else if d.firstTimeIndex then d.config.disableIndexingOnBatteryInit
    else d.config.disableIndexingOnBattery
  }

  /**
   * tracker_should_pause: a manual pause, battery, low disk space or
   * oversized databases; each reason stated on the daemon's own flags and
   * the disk figures.
   */
  function ShouldPause(d: Daemon, st: Option<StatVfs>, databasesTooBig: bool): (pause: bool)
    requires st.Some? ==> st.value.blocks > 0
    ensures pause <==>
      || d.pauseManual
      || databasesTooBig
      || (d.pauseBattery && (if d.firstTimeIndex then d.config.disableIndexingOnBatteryInit
                             else d.config.disableIndexingOnBattery))
      || (d.config.lowDiskSpaceLimit >= 1 && st.Some?
          && st.value.available * 100 < (d.config.lowDiskSpaceLimit as int + 1) * st.value.blocks)
  {
    d.pauseManual || ShouldPauseOnBattery(d) || IsLowDiskSpace(d.config.lowDiskSpaceLimit, st) || databasesTooBig
  }

  /** With every check off, nothing the disk reports can pause the daemon. */
  lemma ShouldPauseDisabled(d: Daemon, st: Option<StatVfs>)
    requires st.Some? ==> st.value.blocks > 0
    requires !d.pauseManual && !d.pauseBattery && d.config.lowDiskSpaceLimit < 1
    ensures !ShouldPause(d, st, false)
  {
  }

  /** The list stored under `key`, empty when the key is absent (a NULL GSList). */
  function Lookup(t: map<string, seq<string>>, key: string): seq<string> {
    if key in t then t[key] else []
  }

  /** The table after tracker_add_metadata_to_table(t, key, value). */
  function AddedMetadata(t: map<string, seq<string>>, key: string, value: string): (r: map<string, seq<string>>)
    ensures r.Keys == t.Keys + {key}
  {
    t[key := [value] + Lookup(t, key)]
  }

  /** Adding `values` one after another under the same key. */
  function AddedAll(t: map<string, seq<string>>, key: string, values: seq<string>): map<string, seq<string>>
    decreases |values|
  {
    if |values| == 0 then t else AddedMetadata(AddedAll(t, key, values[..|values| - 1]), key, values[|values| - 1])
  }

  function Reverse(s: seq<string>): (r: seq<string>)
    ensures |r| == |s|
    ensures forall i :: 0 <= i < |s| ==> r[i] == s[|s| - 1 - i]
  {
    if |s| == 0 then [] else [s[|s| - 1]] + Reverse(s[..|s| - 1])
  }

  /**
   * Prepending: after adding values v1 .. vn under a key, its list is
   * vn .. v1 followed by what was there, and every other key is untouched.
   */
  lemma {:induction false} AddedAllPrepends(t: map<string, seq<string>>, key: string, values: seq<string>)
    ensures var r := AddedAll(t, key, values);
      && r.Keys == (if |values| == 0 then t.Keys else t.Keys + {key})
      && Lookup(r, key) == Reverse(values) + Lookup(t, key)
      && forall k :: k in t && k != key ==> r[k] == t[k]
    decreases |values|
  {
    if |values| > 0 {
      var init := values[..|values| - 1];
      AddedAllPrepends(t, key, init);
      var r0 := AddedAll(t, key, init);
      assert Lookup(AddedAll(t, key, values), key) == [values[|values| - 1]] + Lookup(r0, key);
      assert Reverse(values) == [values[|values| - 1]] + Reverse(init);
    }
  }

  /** A metadata table: each key maps to a GSList of values, newest first. */
  class MetadataTable {
    var table: map<string, seq<string>>

    constructor ()
      ensures table == map[]
    {
      table := map[];
    }

    /**
     * tracker_add_metadata_to_table: look up the list, prepend the value,
     * steal the old entry and insert the new list under the key.
     */
    method AddMetadata(key: string, value: string)
      modifies this
      ensures table == AddedMetadata(old(table), key, value)
      ensures Lookup(table, key) == [value] + Lookup(old(table), key)
      ensures forall k :: k != key && k in old(table) ==> k in table && table[k] == old(table)[k]
    {
      var list := Lookup(table, key);
      list := [value] + list;
      table := table - {key};
      table := table[key := list];
    }
  }
}
