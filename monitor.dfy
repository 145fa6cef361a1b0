/**
 * src/trackerd/tracker-monitor.c: the module-level table of directory
 * monitors, keyed by path, and the config it keeps a reference to. The
 * table exists between tracker_monitor_init and tracker_monitor_shutdown;
 * adding is capped at MAX_MONITORS entries.
 *
 * Creating a GFileMonitor is a call into GIO: its outcome (a monitor or an
 * error) is a parameter of Add. A NULL path is `None`. Calls made before
 * init find a NULL table, on which GLib's argument checks make lookup fail,
 * size 0, and insert and remove do nothing.
 */
module Monitor {
  import opened Ints
  import opened Wrappers

  /**
   * MAX_MONITORS, written `(guint) ((2 ^ 13) - 500)`: `^` is C's exclusive or,
   * so 2 ^ 13 is 15, and 15 - 500 = -485 converted to a guint.
   */
  const MAX_MONITORS: uint32 := ToUInt32(((2 as bv32) ^ (13 as bv32)) as int - 500)

  /** The cap is 4294966811, not the 8192 - 500 = 7692 the comment above it describes. */
  lemma MaxMonitorsValue()
    ensures MAX_MONITORS == 4294966811
    ensures MAX_MONITORS != 7692
  {
    assert ((2 as bv32) ^ (13 as bv32)) as int == 15;
  }

  /** A reference to the daemon's TrackerConfig object. */
  datatype ConfigRef = ConfigRef(id: nat)

  /** A GFileMonitor watching one directory. */
  datatype DirMonitor = DirMonitor(handle: nat)

  /** The module's two globals: `config` and `monitors`, either of which may be NULL. */
  datatype State = State(config: Option<ConfigRef>, monitors: Option<map<string, DirMonitor>>)

  /**
   * tracker_monitor_init on the globals: without a config nothing changes;
   * with one both globals are set afterwards, and no path is added or lost.
   */
  function AfterInit(s: State, cfg: Option<ConfigRef>): (r: State)
    ensures cfg.None? ==> r == s
    ensures cfg.Some? ==> r.config.Some? && r.monitors.Some?
    ensures Count(r) == Count(s)
  {
    if cfg.None? then s
    else State(if s.config.None? then cfg else s.config,
               if s.monitors.None? then Some(map[]) else s.monitors)
  }

  /**
   * g_hash_table_size: the number of watched paths. Before init the table is
   * NULL, and GLib's argument check makes the size 0.
   */
  function Count(s: State): nat {
    if s.monitors.None? then 0 else |s.monitors.value|
  }

  /**
   * tracker_monitor_add on the globals, given the outcome of creating the
   * monitor. On a NULL table the insert is refused by GLib's argument check.
   * The config is untouched, at most one path is added, and the cap holds.
   */
  function AfterAdd(s: State, path: Option<string>, created: Result<DirMonitor, string>): (r: State)
    ensures r.config == s.config
    ensures Count(s) <= Count(r) <= Count(s) + 1
    ensures Count(s) <= MAX_MONITORS ==> Count(r) <= MAX_MONITORS
    ensures path.Some? && Watched(s, path.value) ==> r == s
  {
    if path.None? || s.monitors.None? then s
    else
      var table := s.monitors.value;
      if path.value in table || |table| >= MAX_MONITORS || created.Err? then s
      else s.(monitors := Some(table[path.value := created.value]))
  }

  /**
   * tracker_monitor_remove on the globals; nothing to remove from a NULL
   * table. The path is no longer watched and no path is added.
   */
  function AfterRemove(s: State, path: Option<string>): (r: State)
    ensures r.config == s.config
    ensures path.Some? ==> !Watched(r, path.value)
    ensures Count(r) <= Count(s)
  {
    if path.None? || s.monitors.None? then s else s.(monitors := Some(s.monitors.value - {path.value}))
  }

  /** Whether `path` is watched in state `s`. */
  predicate Watched(s: State, path: string) {
    s.monitors.Some? && path in s.monitors.value
  }

  /** Initialising twice is initialising once: the second call finds both globals set. */
  lemma InitIdempotent(s: State, cfg: Option<ConfigRef>)
    ensures AfterInit(AfterInit(s, cfg), cfg) == AfterInit(s, cfg)
    ensures cfg.Some? ==> AfterInit(s, cfg).monitors.Some? && AfterInit(s, cfg).config.Some?
    ensures s.config.Some? ==> AfterInit(s, cfg).config == s.config
    ensures s.monitors.Some? ==> AfterInit(s, cfg).monitors == s.monitors
  {
  }

  /**
   * Adding a path already watched changes nothing, whatever the monitor
   * outcome; so adding the same path twice is adding it once.
   */
  lemma AddIdempotent(s: State, path: string, created: Result<DirMonitor, string>)
    ensures Watched(s, path) ==> AfterAdd(s, Some(path), created) == s
    ensures AfterAdd(AfterAdd(s, Some(path), created), Some(path), created) == AfterAdd(s, Some(path), created)
  {
  }

  /**
   * A successful add watches exactly one more path; a full table or a failed
   * monitor leaves the table as it was.
   */
  lemma AddEffect(s: State, path: string, created: Result<DirMonitor, string>)
    requires s.monitors.Some? && !Watched(s, path)
    ensures var t := AfterAdd(s, Some(path), created).monitors.value;
      if |s.monitors.value| < MAX_MONITORS && created.Ok?
      then t.Keys == s.monitors.value.Keys + {path} && Count(AfterAdd(s, Some(path), created)) == Count(s) + 1
      else t == s.monitors.value
  {
  }

  /** Before init nothing is ever watched: add and remove leave the globals as they are. */
  lemma UninitialisedTable(s: State, path: Option<string>, created: Result<DirMonitor, string>)
    requires s.monitors.None?
    ensures AfterAdd(s, path, created) == s && AfterRemove(s, path) == s
    ensures Count(s) == 0 && (path.Some? ==> !Watched(s, path.value))
  {
  }

  /** After a remove the path is not watched, and every other path is as it was. */
  lemma RemoveEffect(s: State, path: string, other: string)
    requires other != path
    ensures !Watched(AfterRemove(s, Some(path)), path)
    ensures Watched(AfterRemove(s, Some(path)), other) <==> Watched(s, other)
    ensures Watched(s, other) ==> AfterRemove(s, Some(path)).monitors.value[other] == s.monitors.value[other]
  {
    if s.monitors.Some? {
      var t := AfterRemove(s, Some(path)).monitors.value;
      assert t == s.monitors.value - {path};
    }
  }

  /** Removing what a successful add inserted restores the table. */
  lemma AddThenRemove(s: State, path: string, created: Result<DirMonitor, string>)
    requires !Watched(s, path)
    ensures AfterRemove(AfterAdd(s, Some(path), created), Some(path)) == s
  {
    if s.monitors.Some? {
      var table := s.monitors.value;
      assert table - {path} == table;
      if |table| < MAX_MONITORS && created.Ok? {
        assert table[path := created.value] - {path} == table;
      }
    }
  }

  class Monitors {
    var config: Option<ConfigRef>
    var monitors: Option<map<string, DirMonitor>>

    /** The table never holds more than MAX_MONITORS entries. */
    ghost predicate Valid()
      reads this
    {
      monitors.Some? ==> |monitors.value| <= MAX_MONITORS
    }

    ghost function Current(): State
      reads this
    {
      State(config, monitors)
    }

    /** The globals at program start: both NULL. */
    constructor ()
      ensures Valid() && Current() == State(None, None)
    {
      config := None;
      monitors := None;
    }

    /** tracker_monitor_init: FALSE for a missing config; otherwise each global is set only if still NULL. */
    method Init(cfg: Option<ConfigRef>) returns (ok: bool)
      requires Valid()
      modifies this
      ensures Valid()
      ensures ok <==> cfg.Some?
      ensures Current() == AfterInit(old(Current()), cfg)
    {
      if cfg.None? {
        return false;
      }
      if config.None? {
        config := cfg;
      }
      if monitors.None? {
        monitors := Some(map[]);
      }
      return true;
    }

    /** tracker_monitor_shutdown: both globals dropped. */
    method Shutdown()
      modifies this
      ensures Valid()
      ensures Current() == State(None, None)
    {
      if monitors.Some? {
        monitors := None;
      }
      if config.Some? {
        config := None;
      }
    }

    /**
     * tracker_monitor_add: TRUE when the path is already watched or the new
     * monitor is inserted; FALSE for a NULL path, a full table or a monitor
     * that could not be created.
     */
    method Add(path: Option<string>, created: Result<DirMonitor, string>) returns (ok: bool)
      requires Valid()
      modifies this
      ensures Valid()
      ensures ok <==> path.Some? && (Watched(old(Current()), path.value)
                                     || (Count(old(Current())) < MAX_MONITORS && created.Ok?))
      ensures Current() == AfterAdd(old(Current()), path, created)
    {
      if path.None? {
        return false;
      }
      if monitors.Some? && path.value in monitors.value {
        return true;
      }
      var size := if monitors.None? then 0 else |monitors.value|;
      if size >= MAX_MONITORS {
        return false;
      }
      if created.Err? {
        return false;
      }
      if monitors.Some? {
        monitors := Some(monitors.value[path.value := created.value]);
      }
      return true;
    }

    /** tracker_monitor_remove: TRUE whether or not the path was watched; FALSE only for a NULL path. */
    method Remove(path: Option<string>, deleteSubdirs: bool) returns (ok: bool)
      requires Valid()
      modifies this
      ensures Valid()
      ensures ok <==> path.Some?
      ensures Current() == AfterRemove(old(Current()), path)
    {
      if path.None? {
        return false;
      }
      if monitors.None? || path.value !in monitors.value {
        assert monitors.Some? ==> monitors.value - {path.value} == monitors.value;
        return true;
      }
      monitors := Some(monitors.value - {path.value});
      return true;
    }

    /** tracker_monitor_is_watched: whether the path is a key of the table; FALSE for a NULL path. */
    method IsWatched(path: Option<string>) returns (watched: bool)
      ensures watched <==> path.Some? && Watched(Current(), path.value)
    {
      if path.None? {
        return false;
      }
      return monitors.Some? && path.value in monitors.value;
    }

    /** tracker_monitor_get_count: the table size, returned as a gint. */
    method GetCount() returns (count: int32)
      ensures Count(Current()) < 0x8000_0000 ==> count == Count(Current())
      ensures (count - Count(Current())) % TWO_32 == 0
    {
      var size := if monitors.None? then 0 else |monitors.value|;
      count := ToInt32(size);
    }
  }
}
