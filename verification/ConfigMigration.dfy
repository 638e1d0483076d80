/** Loading, migrating and saving the stored configuration: an interrupted migration comes to the same
    running configuration as an undisturbed one. */
module ConfigMigration {
  import opened Bytes

  const VERSION: int := 4

  /** What a commit does to a loaded value: nothing; pull it into a range; the same unless it is 0 (off);
      or fall back to the first of an enumeration. */
  datatype ClampSpec = Any | Range(lo: int, hi: int) | OffOrRange(low: int, high: int) | Enum(last: int)

  /** A clamp has values to leave alone. */
  predicate Sane(c: ClampSpec) {
    match c
    case Any => true
    case Range(lo, hi) => lo <= hi
    case OffOrRange(lo, hi) => 0 < lo <= hi
    case Enum(last) => last >= 0
  }

  type Clamp = c: ClampSpec | Sane(c) witness Any

  /** A stored key, in the order of the export; carried ones survive a migration. */
  datatype Field = Field(key: string, carried: bool, clamp: Clamp)

  /** The keys as `h_export` writes them, the schema version last. */
  function Table(): seq<Field> { DeviceKeys() + SensorKeys() }

  function DeviceKeys(): seq<Field> {
    [
      Field("secret-key", true, Any), Field("serial-number", true, Any), Field("nonce-counter", true, Any),
      Field("claim-token", true, Any), Field("vendor-token", true, Any), Field("calibration", false, Any),
      Field("interval-sample", false, OffOrRange(5, 3600)), Field("interval-report", false, Range(60, 86400)),
      Field("history-enable", false, Any), Field("history-channels", false, Any),
      Field("battery-level", false, Range(1000, 3600)), Field("vendor-reset-allow", true, Any),
      Field("interval-announce", false, OffOrRange(1, 168)), Field("alarm-limit", false, Range(0, 3600)),
      Field("lrw-region", true, Enum(3)), Field("radio-mode", true, Enum(2)),
      Field("lrw-sub-band", true, Range(0, 8)), Field("lrw-network", true, Enum(1)), Field("lrw-adr", true, Any),
      Field("lrw-activation", true, Enum(1)), Field("lrw-deveui", true, Any), Field("lrw-joineui", true, Any),
      Field("lrw-nwkkey", true, Any), Field("lrw-appkey", true, Any), Field("lrw-devaddr", true, Any),
      Field("lrw-nwkskey", true, Any), Field("lrw-appskey", true, Any), Field("lrw-datarate", true, Enum(8)),
      Field("radio-link-check-interval", false, Range(0, 255)),
      Field("radio-link-check-fail-rejoin", false, Range(1, 255))
    ]
  }

  function SensorKeys(): seq<Field> {
    [
      Field("cap-hall-left", false, Any), Field("cap-hall-right", false, Any), Field("cap-light-sensor", false, Any), Field("cap-barometer", false, Any),
      Field("cap-sht", false, Any), Field("cap-w1-sensors", false, Any), Field("cap-accelerometer", false, Any),
      Field("cap-gpio-mode", false, Enum(3)), Field("cap-gpio-input-a", false, Enum(3)),
      Field("cap-gpio-input-b", false, Enum(3)), Field("alarm-0", false, Any), Field("alarm-1", false, Any),
      Field("alarm-2", false, Any), Field("alarm-3", false, Any), Field("alarm-4", false, Any),
      Field("alarm-5", false, Any), Field("alarm-6", false, Any), Field("alarm-7", false, Any),
      Field("alarm-8", false, Any), Field("alarm-9", false, Any), Field("alarm-10", false, Any),
      Field("alarm-11", false, Any), Field("alarm-12", false, Any), Field("alarm-13", false, Any),
      Field("alarm-14", false, Any), Field("alarm-15", false, Any), Field("alarm-buzzer-mode", false, Enum(7)),
      Field("radio-alarm-ack", false, Any), Field("accel-motion-sensitivity", false, Enum(3)),
      Field("sensor1-rom", false, Any), Field("sensor1-type", false, Any), Field("sensor2-rom", false, Any),
      Field("sensor2-type", false, Any), Field("sensor3-rom", false, Any), Field("sensor3-type", false, Any),
      Field("sensor4-rom", false, Any), Field("sensor4-type", false, Any), Field("hall-left-counter", false, Any),
      Field("hall-right-counter", false, Any), Field("input-a-counter", false, Any),
      Field("input-b-counter", false, Any), Field("p2p-frequency", true, Range(863000000, 870000000)),
      Field("p2p-spreading-factor", true, Range(6, 12)), Field("p2p-tx-power", true, Range(2, 14)),
      Field("p2p-modulation", true, Enum(1)), Field("config-version", false, Any)
    ]
  }

  const COUNT: nat := 76
  const VERSION_KEY: nat := 75

  lemma TableIs()
    ensures |Table()| == COUNT && Table()[VERSION_KEY].key == "config-version"
    ensures Table()[VERSION_KEY].clamp == Any && !Table()[VERSION_KEY].carried
  {
  }

  function Clamped(c: Clamp, v: int): int {
    match c
    case Any => v
    case Range(lo, hi) => if v < lo then lo else if v > hi then hi else v
    case OffOrRange(lo, hi) => if v < lo && v != 0 then lo else if v > hi then hi else v
    case Enum(last) => if v < 0 || v > last then 0 else v
  }

  /** The values of a key that the firmware can run on. */
  predicate InRange(c: Clamp, v: int) {
    match c
    case Any => true
    case Range(lo, hi) => lo <= v <= hi
    case OffOrRange(lo, hi) => v == 0 || lo <= v <= hi
    case Enum(last) => 0 <= v <= last
  }

  /** A value out of range goes to the end of the range that is nearer, or to the first of the
      enumeration. */
  predicate Pulled(c: Clamp, v: int, w: int) {
    match c
    case Any => false
    case Range(lo, hi) => if v < lo then w == lo else w == hi
    case OffOrRange(lo, hi) => if v < lo then w == lo else w == hi
    case Enum(_) => w == 0
  }

  lemma ClampIs(c: Clamp, v: int)
    ensures InRange(c, Clamped(c, v)) && if InRange(c, v) then Clamped(c, v) == v else Pulled(c, v, Clamped(c, v))
  {
  }

  // ---- Configurations and the settings store -----------------------------------------------------------

  /** A value per key; bytes count as numbers. */
  type Config = c: seq<int> | |c| == COUNT witness seq(COUNT, _ => 0)

  /** What the store has under each key; nothing where the stored value has the wrong size. */
  type Store = s: seq<Option<int>> | |s| == COUNT witness seq(COUNT, _ => None)

  /** After `h_set` for every key: stored values over defaults. */
  function Loaded(defaults: Config, s: Store): Config {
    seq(COUNT, k requires 0 <= k < COUNT => if s[k].Some? then s[k].value else defaults[k])
  }

  /** The loaded configuration is older than the firmware. */
  predicate Older(c: Config) { c[VERSION_KEY] < VERSION }

  /** `h_commit`: an older configuration keeps the carried keys and falls back to defaults in the rest;
      then every value is clamped. */
  function Committed(defaults: Config, c: Config): Config {
    TableIs();
    seq(COUNT, k requires 0 <= k < COUNT =>
      Clamped(Table()[k].clamp, if Older(c) && !Table()[k].carried then defaults[k] else c[k]))
  }

  /** The configuration the firmware runs on after booting from the store. */
  function Running(defaults: Config, s: Store): Config { Committed(defaults, Loaded(defaults, s)) }

  /** The store after the first `n` key writes of saving `c`. */
  function Saved(s: Store, c: Config, n: nat): Store {
    seq(COUNT, k requires 0 <= k < COUNT => if k < n then Some(c[k]) else s[k])
  }

  lemma RunningAt(defaults: Config, s: Store, k: nat)
    requires k < COUNT
    ensures |Table()| == COUNT
    ensures var l := if s[k].Some? then s[k].value else defaults[k];
      Running(defaults, s)[k] == Clamped(Table()[k].clamp, if Older(Loaded(defaults, s)) && !Table()[k].carried then defaults[k] else l)
  {
    hide Table, Clamped;
    TableIs();
  }

  /** The firmware runs on the stored value of this key: it has one, which survives a migration or is not
      to go through one. */
  predicate Stays(defaults: Config, s: Store, k: nat)
    requires k < COUNT
  {
    TableIs();
    s[k].Some? && (Table()[k].carried || !Older(Loaded(defaults, s)))
  }

  /** Every value the firmware runs on is in range. A boot, whether it migrates or not, changes no stored
      value that stays and is in range, and pulls one that is not to its nearer end; the other keys get
      their defaults. */
  lemma BootKeeps(defaults: Config, s: Store, k: nat)
    requires k < COUNT
    ensures |Table()| == COUNT && InRange(Table()[k].clamp, Running(defaults, s)[k])
    ensures var v := if Stays(defaults, s, k) then s[k].value else defaults[k];
      if InRange(Table()[k].clamp, v) then Running(defaults, s)[k] == v else Pulled(Table()[k].clamp, v, Running(defaults, s)[k])
  {
    hide Table, Clamped, Running, InRange, Pulled;
    RunningAt(defaults, s, k);
    ClampIs(Table()[k].clamp, if Stays(defaults, s, k) then s[k].value else defaults[k]);
  }

  /** All values of a configuration are in range. */
  ghost predicate AllInRange(c: seq<int>) {
    |c| == COUNT == |Table()| && forall k :: 0 <= k < COUNT ==> InRange(Table()[k].clamp, c[k])
  }

  /** What a commit leaves of a loaded configuration. */
  ghost predicate Commits(defaults: Config, was: Config, now: Config) {
    && AllInRange(now)
    && (forall k :: 0 <= k < COUNT && (Table()[k].carried || !Older(was)) && InRange(Table()[k].clamp, was[k]) ==> now[k] == was[k])
    && (forall k :: 0 <= k < COUNT && !Table()[k].carried && Older(was) && InRange(Table()[k].clamp, defaults[k]) ==> now[k] == defaults[k])
  }

  lemma CommittedIs(defaults: Config, c: Config)
    ensures Commits(defaults, c, Committed(defaults, c))
  {
    hide Table, Clamped, InRange, Pulled;
    TableIs();
    forall k | 0 <= k < COUNT
      ensures InRange(Table()[k].clamp, Committed(defaults, c)[k])
      ensures var v := if Older(c) && !Table()[k].carried then defaults[k] else c[k];
        InRange(Table()[k].clamp, v) ==> Committed(defaults, c)[k] == v
    {
      ClampIs(Table()[k].clamp, if Older(c) && !Table()[k].carried then defaults[k] else c[k]);
    }
  }

  /** The version key is clamped to itself and not carried: after a migration it is the firmware's. */
  lemma VersionAfter(defaults: Config, s: Store, n: nat)
    requires defaults[VERSION_KEY] == VERSION && Older(Loaded(defaults, s)) && n <= COUNT
    ensures Running(defaults, s)[VERSION_KEY] == VERSION
    ensures Older(Loaded(defaults, Saved(s, Running(defaults, s), n))) <==> n <= VERSION_KEY
  {
    hide Table, Running;
    TableIs();
    RunningAt(defaults, s, VERSION_KEY);
  }

  /** Losing power after any prefix of the writes that persist a migration, and booting again, gives the
      same running configuration as the undisturbed migration. */
  lemma CrashSafe(defaults: Config, s: Store, n: nat)
    requires defaults[VERSION_KEY] == VERSION && Older(Loaded(defaults, s)) && n <= COUNT
    ensures Running(defaults, Saved(s, Running(defaults, s), n)) == Running(defaults, s)
  {
    hide Table, Clamped, Running, Loaded, InRange, Pulled;
    var r := Running(defaults, s);
    var t := Saved(s, r, n);
    VersionAfter(defaults, s, n);
    TableIs();
    forall k: nat | k < COUNT
      ensures Running(defaults, t)[k] == r[k]
    {
      RunningAt(defaults, s, k);
      RunningAt(defaults, t, k);
      BootKeeps(defaults, s, k);
      BootKeeps(defaults, t, k);
    }
  }

  /** The store after a sequence of boots, each of which loses power after so many writes. */
  function AfterCrashes(defaults: Config, s: Store, ns: seq<nat>): Store {
    if ns == [] then s
    else
      var t := AfterCrashes(defaults, s, ns[..|ns| - 1]);
      if Older(Loaded(defaults, t)) then Saved(t, Running(defaults, t), ns[|ns| - 1]) else t
  }

  /** Any number of interrupted boots changes nothing. */
  lemma {:induction false} ManyCrashes(defaults: Config, s: Store, ns: seq<nat>)
    requires defaults[VERSION_KEY] == VERSION && Older(Loaded(defaults, s)) && forall i :: 0 <= i < |ns| ==> ns[i] <= COUNT
    ensures Running(defaults, AfterCrashes(defaults, s, ns)) == Running(defaults, s)
  {
    hide Running, Loaded, Older, Saved;
    if ns != [] {
      ManyCrashes(defaults, s, ns[..|ns| - 1]);
      var t := AfterCrashes(defaults, s, ns[..|ns| - 1]);
      if Older(Loaded(defaults, t)) {
        CrashSafe(defaults, t, ns[|ns| - 1]);
      }
    }
  }

  /** Once all keys are written the migration does not run again. */
  lemma MigratedOnce(defaults: Config, s: Store)
    requires defaults[VERSION_KEY] == VERSION && Older(Loaded(defaults, s))
    ensures !Older(Loaded(defaults, Saved(s, Running(defaults, s), COUNT)))
  {
    VersionAfter(defaults, s, COUNT);
  }

  // ---- The steps of a boot --------------------------------------------------------------------------------

  class AppConfig {
    const defaults: Config
    var staged: seq<int>               // m_app_config
    var running: seq<int>              // g_app_config
    var migrated: bool
    var store: Store

    constructor (d: Config, s: Store)
      ensures staged == d && running == d && !migrated && store == s && defaults == d
    {
      defaults := d;
      staged, running, migrated, store := d, d, false, s;
    }

    /** `h_set` for every stored key. */
    method Load()
      requires staged == defaults
      modifies `staged
      ensures staged == Loaded(defaults, store)
    {
      var k := 0;
      while k < COUNT
        invariant 0 <= k <= COUNT && |staged| == COUNT
        invariant forall j :: 0 <= j < COUNT ==> staged[j] == if j < k && store[j].Some? then store[j].value else defaults[j]
      {
        if store[k].Some? {
          staged := staged[k := store[k].value];
        }
        k := k + 1;
      }
      assert staged == Loaded(defaults, store);
    }

    /** `h_commit`. */
    method Commit()
      requires |staged| == COUNT
      modifies `staged, `running, `migrated
      ensures staged == running == Committed(defaults, old(staged)) && migrated == (old(migrated) || Older(old(staged)))
      ensures Commits(defaults, old(staged), running)
    {
      hide Table, Clamped, Commits;
      CommittedIs(defaults, staged);
      TableIs();
      ghost var was := staged;
      if staged[VERSION_KEY] < VERSION {
        var stored := staged;
        staged := defaults;
        var k := 0;
        while k < COUNT
          modifies `staged
          invariant 0 <= k <= COUNT && |staged| == COUNT && stored == was
          invariant forall j :: 0 <= j < COUNT ==> staged[j] == if j < k && Table()[j].carried then was[j] else defaults[j]
        {
          if Table()[k].carried {
            staged := staged[k := stored[k]];
          }
          k := k + 1;
        }
        migrated := true;
      }
      ghost var chosen := staged;
      var k := 0;
      while k < COUNT
        modifies `staged
        invariant 0 <= k <= COUNT && |staged| == COUNT
        invariant forall j :: 0 <= j < COUNT ==> staged[j] == if j < k then Clamped(Table()[j].clamp, chosen[j]) else chosen[j]
      {
        staged := staged[k := Clamped(Table()[k].clamp, staged[k])];
        k := k + 1;
      }
      running := staged;
      assert staged == Committed(defaults, was);
    }

    /** `h_export` into the store, cut short after `n` writes by a power loss. */
    method Export(n: nat)
      requires |staged| == COUNT && n <= COUNT
      modifies `store
      ensures store == Saved(old(store), staged, n)
    {
      var k := 0;
      while k < n
        invariant 0 <= k <= n && store == Saved(old(store), staged, k)
      {
        store := store[k := Some(staged[k])];
        k := k + 1;
      }
    }

    /** `app_config_init`, with power lost after `n` writes if it has to save. The running configuration
        depends on the store alone, and booting again from what is now stored gives the same one. */
    method Boot(n: nat)
      requires staged == defaults && !migrated && defaults[VERSION_KEY] == VERSION && n <= COUNT
      modifies this
      ensures running == Running(defaults, old(store)) == Running(defaults, store)
      ensures store == (if Older(Loaded(defaults, old(store))) then Saved(old(store), running, n) else old(store))
      ensures n == COUNT ==> !Older(Loaded(defaults, store))
      ensures AllInRange(running)
    {
      hide Table, Clamped, Loaded, Committed, InRange;
      Load();
      Commit();
      if migrated {
        migrated := false;
        CrashSafe(defaults, store, n);
        VersionAfter(defaults, store, n);
        Export(n);
      }
    }
  }
}
