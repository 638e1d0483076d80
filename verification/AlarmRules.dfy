/** Alarm rules as packed bytes in the staged configuration, their decoded cache, and a SetParam batch
    that changes all of it or nothing. */
module AlarmRules {
  import opened Bytes

  const RULES: nat := 16
  const PACK_LEN: nat := 18
  const FIRST_ALARM_TAG: nat := 3
  const EACCES: int := -13

  /** A rule; limits and dwell are the four bytes of their float. */
  datatype Rule = Rule(enabled: bool, slot: byte, channel: byte, sensorType: byte, fromState: byte, toState: byte,
    lo: seq<byte>, hi: seq<byte>, dwell: seq<byte>)

  predicate RuleShape(r: Rule) { |r.lo| == |r.hi| == |r.dwell| == 4 }

  function Zeros(n: nat): (z: seq<byte>)
    ensures |z| == n && forall i :: 0 <= i < n ==> z[i] == 0
  {
    seq(n, _ => 0)
  }

  /** `pack_rule`: bit 0 of the first byte says present, bit 1 enabled. */
  function Pack(r: Rule): (b: seq<byte>)
    requires RuleShape(r)
    ensures |b| == PACK_LEN
  {
    [if r.enabled then 3 else 1, r.slot, r.channel, r.sensorType, r.fromState, r.toState] + r.lo + r.hi + r.dwell
  }

  /** `unpack_rule`; the other bits of the first byte are not looked at. */
  function Unpack(b: seq<byte>): (r: Option<Rule>)
    requires |b| == PACK_LEN
    ensures r.Some? ==> RuleShape(r.value)
  {
    if b[0] % 2 == 0 then None
    else Some(Rule(b[0] / 2 % 2 == 1, b[1], b[2], b[3], b[4], b[5], b[6..10], b[10..14], b[14..18]))
  }

  lemma UnpackPacked(r: Rule)
    requires RuleShape(r)
    ensures Unpack(Pack(r)) == Some(r) && Pack(r)[0] % 2 == 1
  {
    var b := Pack(r);
    assert b[6..10] == r.lo && b[10..14] == r.hi && b[14..18] == r.dwell;
  }

  /** Bytes that decode pack back to themselves if and only if no unknown bit is set in the first. */
  lemma PackUnpacked(b: seq<byte>)
    requires |b| == PACK_LEN && Unpack(b).Some?
    ensures Pack(Unpack(b).value) == b <==> b[0] < 4
  {
    var r := Unpack(b).value;
    var p := Pack(r);
    assert p[1..] == b[1..];
    if b[0] < 4 {
      assert p == [b[0]] + b[1..] == b;
    }
  }

  // ---- The staged configuration ---------------------------------------------------------------------

  datatype Sensors = Sensors(types: seq<byte>, other: seq<nat>)        // types of the slots s1..s4

  datatype Alarms = Alarms(rules: seq<seq<byte>>, other: seq<nat>)

  datatype Config = Config(lorawan: seq<nat>, application: seq<nat>, sensors: Sensors, alarms: Alarms, p2p: seq<nat>)

  predicate AlarmsShape(a: Alarms) {
    |a.rules| == RULES && forall i :: 0 <= i < RULES ==> |a.rules[i]| == PACK_LEN
  }

  predicate Shape(c: Config) { AlarmsShape(c.alarms) && |c.sensors.types| == 4 }

  const MOTHERBOARD: byte := 1

  /** `slot_type_in`; no type for a slot that does not exist. */
  function SlotType(c: Config, slot: byte): byte
    requires Shape(c)
  {
    if slot == 0 then MOTHERBOARD else if slot <= 4 then c.sensors.types[slot - 1] else 0
  }

  predicate Stale(c: Config, r: Rule)
    requires Shape(c)
  {
    r.sensorType != SlotType(c, r.slot)
  }

  type Validity = Rule -> bool

  /** The rule that bytes hold, if it is present and valid. */
  function Decoded(valid: Validity, b: seq<byte>): Option<Rule>
    requires |b| == PACK_LEN
  {
    var r := Unpack(b); if r.Some? && valid(r.value) then r else None
  }

  /** Each entry is used iff its bytes decode to a present valid rule, and then equal to it; otherwise
      the bytes are zero. */
  predicate CacheOk(valid: Validity, c: Config, cache: seq<Option<Rule>>) {
    && Shape(c) && |cache| == RULES
    && forall i :: 0 <= i < RULES ==>
         cache[i] == Decoded(valid, c.alarms.rules[i]) && (cache[i].None? ==> c.alarms.rules[i] == Zeros(PACK_LEN))
  }

  /** Entry `i` is present and does not hold a valid rule. */
  predicate BadRule(valid: Validity, c: Config, i: nat)
    requires Shape(c) && i < RULES
  {
    c.alarms.rules[i][0] % 2 == 1 && Decoded(valid, c.alarms.rules[i]).None?
  }

  /** Entry `i` holds a valid rule written for another sensor type than its slot has. */
  predicate StaleRule(valid: Validity, c: Config, i: nat)
    requires Shape(c) && i < RULES
  {
    Decoded(valid, c.alarms.rules[i]).Some? && Stale(c, Decoded(valid, c.alarms.rules[i]).value)
  }

  function InvalidOf(valid: Validity, c: Config): set<nat>
    requires Shape(c)
  {
    set i: nat | i < RULES && BadRule(valid, c, i)
  }

  function StaleOf(valid: Validity, c: Config): set<nat>
    requires Shape(c)
  {
    set i: nat | i < RULES && StaleRule(valid, c, i)
  }

  function Fixed(valid: Validity, b: seq<byte>): (r: seq<byte>)
    requires |b| == PACK_LEN
    ensures |r| == PACK_LEN
  {
    if Decoded(valid, b).Some? then b else Zeros(PACK_LEN)
  }

  /** What a reload leaves of the bytes: those that hold no valid rule are zeroed. */
  function Sanitized(valid: Validity, c: Config): Config
    requires Shape(c)
  {
    c.(alarms := c.alarms.(rules := seq(RULES, i requires 0 <= i < RULES => Fixed(valid, c.alarms.rules[i]))))
  }

  function CacheOf(valid: Validity, c: Config): seq<Option<Rule>>
    requires Shape(c)
  {
    seq(RULES, i requires 0 <= i < RULES => Decoded(valid, c.alarms.rules[i]))
  }

  lemma ZerosAreNone(valid: Validity)
    ensures Decoded(valid, Zeros(PACK_LEN)) == None
  {
  }

  /** A reload of a consistent configuration changes nothing and finds only stale rules. */
  lemma ReloadKeeps(valid: Validity, c: Config, cache: seq<Option<Rule>>)
    requires CacheOk(valid, c, cache)
    ensures Sanitized(valid, c) == c && CacheOf(valid, c) == cache && InvalidOf(valid, c) == {}
  {
    assert Sanitized(valid, c).alarms.rules == c.alarms.rules;
    assert CacheOf(valid, c) == cache;
  }

  lemma ReloadOk(valid: Validity, c: Config)
    requires Shape(c)
    ensures CacheOk(valid, Sanitized(valid, c), CacheOf(valid, c))
  {
    ZerosAreNone(valid);
  }

  // ---- A SetParam batch -------------------------------------------------------------------------------

  /** What applying one group does to it, also when it fails half way, and the field it fails on. */
  datatype Applied<T> = Applied(value: T, rc: int, fault: nat)

  datatype Batch = Batch(
    vendor: bool,                        // over the vendor recovery channel
    replace: bool,                       // alarms_replace
    lorawan: Option<seq<nat> -> Applied<seq<nat>>>,
    application: Option<seq<nat> -> Applied<seq<nat>>>,
    sensors: Option<Sensors -> Applied<Sensors>>,
    alarms: Option<Alarms -> Applied<Alarms>>,
    p2p: Option<seq<nat> -> Applied<seq<nat>>>,
    save: bool)

  /** Groups keep their shape. */
  ghost predicate BatchOk(b: Batch) {
    && (b.sensors.Some? ==> forall s: Sensors :: |s.types| == 4 ==> |b.sensors.value(s).value.types| == 4)
    && (b.alarms.Some? ==> forall a: Alarms :: AlarmsShape(a) ==> AlarmsShape(b.alarms.value(a).value))
  }

  datatype Answer = Ack(save: bool) | NotWritable(fault: nat) | OutOfRange(fault: nat)

  class RuleStore {
    const valid: Validity
    var config: Config
    var cache: seq<Option<Rule>>
    var invalid: set<nat>

    constructor (v: Validity, c: Config)
      requires Shape(c)
      ensures Valid() && config == Sanitized(v, c) && valid == v
    {
      valid := v;
      config := Sanitized(v, c);
      cache := CacheOf(v, c);
      invalid := InvalidOf(v, c);
      ReloadOk(v, c);
    }

    ghost predicate Valid()
      reads this
    {
      CacheOk(valid, config, cache)
    }

    /** `app_alarm_rules_set`. */
    method Set(i: nat, r: Rule) returns (ok: bool)
      requires Valid() && RuleShape(r)
      modifies `config, `cache
      ensures Valid() && ok == (i < RULES && valid(r))
      ensures ok ==> cache == old(cache)[i := Some(r)] && config == old(config).(alarms := config.alarms)
                     && config.alarms == old(config.alarms).(rules := old(config.alarms.rules)[i := Pack(r)])
      ensures !ok ==> cache == old(cache) && config == old(config)
    {
      if i >= RULES || !valid(r) {
        return false;
      }
      UnpackPacked(r);
      var b := Pack(r);
      config := config.(alarms := config.alarms.(rules := config.alarms.rules[i := b]));
      cache := cache[i := Unpack(b)];
      ok := true;
    }

    /** `app_alarm_rules_clear`. */
    method Clear(i: nat) returns (ok: bool)
      requires Valid()
      modifies `config, `cache
      ensures Valid() && ok == (i < RULES && old(cache)[i].Some?)
      ensures i < RULES ==> cache == old(cache)[i := None] && config.alarms.rules == old(config.alarms.rules)[i := Zeros(PACK_LEN)]
      ensures i >= RULES ==> cache == old(cache) && config == old(config)
    {
      if i >= RULES {
        return false;
      }
      ZerosAreNone(valid);
      ok := cache[i].Some?;
      config := config.(alarms := config.alarms.(rules := config.alarms.rules[i := Zeros(PACK_LEN)]));
      cache := cache[i := None];
    }

    /** `app_alarm_rules_clear_all`. */
    method ClearAll()
      requires Valid()
      modifies `config, `cache
      ensures Valid() && config == Emptied(old(config)) && forall i :: 0 <= i < RULES ==> cache[i] == None
    {
      ZerosAreNone(valid);
      var i := 0;
      ghost var c := config;
      while i < RULES
        invariant 0 <= i <= RULES && Valid() && config == c.(alarms := c.alarms.(rules := config.alarms.rules))
        invariant forall j :: 0 <= j < i ==> cache[j] == None && config.alarms.rules[j] == Zeros(PACK_LEN)
      {
        config := config.(alarms := config.alarms.(rules := config.alarms.rules[i := Zeros(PACK_LEN)]));
        cache := cache[i := None];
        i := i + 1;
      }
      assert config.alarms.rules == Emptied(c).alarms.rules;
    }

    function StaleMask(): (m: set<nat>)
      requires Shape(config) && |cache| == RULES
      reads this
    {
      set i: nat | i < RULES && cache[i].Some? && Stale(config, cache[i].value)
    }

    /** `app_alarm_rules_reload_from_config`: decode every entry, zero what holds no valid rule, and count
        what is wrong: invalid rules, and stale ones, which are kept. */
    method Reload() returns (faults: nat)
      requires Shape(config) && |cache| == RULES
      modifies `config, `cache, `invalid
      ensures Valid() && config == Sanitized(valid, old(config)) && cache == CacheOf(valid, old(config))
      ensures invalid == InvalidOf(valid, old(config)) && faults == |invalid| + |StaleOf(valid, old(config))|
    {
      hide Decoded, Stale, BadRule, StaleRule, Fixed;
      ghost var c := config;
      ghost var stale: set<nat> := {};
      invalid := {};
      faults := 0;
      var i := 0;
      while i < RULES
        invariant 0 <= i <= RULES && |cache| == RULES && config == c.(alarms := c.alarms.(rules := config.alarms.rules))
        invariant Shape(config)
        invariant forall j :: 0 <= j < i ==> cache[j] == Decoded(valid, c.alarms.rules[j])
        invariant forall j :: 0 <= j < RULES ==>
                    config.alarms.rules[j] == if j < i then Fixed(valid, c.alarms.rules[j]) else c.alarms.rules[j]
        invariant forall j: nat :: j in invalid <==> j < i && BadRule(valid, c, j)
        invariant forall j: nat :: j in stale <==> j < i && StaleRule(valid, c, j)
        invariant faults == |invalid| + |stale|
      {
        var field := config.alarms.rules[i];
        var r := Decoded(valid, field);
        EntryIs(valid, config, c, i);
        if r.Some? {
          if Stale(config, r.value) {
            faults := faults + 1;
            stale := stale + {i};
          }
          cache := cache[i := r];
        } else {
          if field[0] % 2 == 1 {
            invalid := invalid + {i};
            faults := faults + 1;
          }
          config := config.(alarms := config.alarms.(rules := config.alarms.rules[i := Zeros(PACK_LEN)]));
          cache := cache[i := None];
        }
        i := i + 1;
      }
      assert config.alarms.rules == Sanitized(valid, c).alarms.rules;
      assert cache == CacheOf(valid, c);
      assert invalid == InvalidOf(valid, c);
      assert stale == StaleOf(valid, c);
      ReloadOk(valid, c);
    }

    /** Apply the groups of a batch to the staged configuration, up to the first that fails. */
    method ApplyGroups(b: Batch) returns (rc: int, group: nat, fault: nat)
      requires Valid() && BatchOk(b)
      modifies `config, `cache
      ensures Shape(config) && |cache| == RULES && (!b.replace ==> cache == old(cache))
      ensures (config, rc, group, fault) == Staged(old(config), b)
      ensures b.alarms.None? && !b.replace ==> config.alarms == old(config).alarms
      ensures b.sensors.None? ==> config.sensors == old(config).sensors
    {
      hide CacheOk;
      rc, group, fault := 0, 0, 0;
      CacheShape(valid, config, cache);
      if b.replace {
        if b.vendor {
          return EACCES, 4, 0;
        }
        ClearAll();
        CacheShape(valid, config, cache);
      }
      if b.lorawan.Some? {
        var a := b.lorawan.value(config.lorawan);
        config := config.(lorawan := a.value);
        rc, group, fault := a.rc, 1, a.fault;
      }
      if rc == 0 && b.application.Some? {
        var a := b.application.value(config.application);
        config := config.(application := a.value);
        rc, group, fault := a.rc, 2, a.fault;
      }
      if rc == 0 && b.sensors.Some? {
        var a := b.sensors.value(config.sensors);
        config := config.(sensors := a.value);
        rc, group, fault := a.rc, 3, a.fault;
      }
      if rc == 0 && b.alarms.Some? {
        var a := b.alarms.value(config.alarms);
        config := config.(alarms := a.value);
        rc, group, fault := a.rc, 4, a.fault;
      }
      if rc == 0 && b.p2p.Some? {
        var a := b.p2p.value(config.p2p);
        config := config.(p2p := a.value);
        rc, group, fault := a.rc, 5, a.fault;
      }
    }

    /** `app_cmd_handle_set_param`: after an error answer the staged configuration and the rule cache are
        as before. A batch is acknowledged if and only if every group applies and, where it touches rules
        or sensor types, no more rules are wrong after it than were stale before; what it staged is then
        in force, but for invalid rules, which are dropped. */
    method SetParam(b: Batch) returns (ans: Answer)
      requires Valid() && BatchOk(b)
      modifies `config, `cache, `invalid
      ensures Valid()
      ensures !ans.Ack? ==> config == old(config) && cache == old(cache)
      ensures Shape(Staged(old(config), b).0)
      ensures ans.Ack? <==> Staged(old(config), b).1 == 0
                            && (Touches(b) ==> Wrong(valid, Staged(old(config), b).0) <= |StaleOf(valid, old(config))|)
      ensures ans.Ack? ==> ans.save == b.save
                           && config == if Touches(b) then Sanitized(valid, Staged(old(config), b).0) else Staged(old(config), b).0
      ensures Staged(old(config), b).1 != 0 ==>
                ans == Refusal(Staged(old(config), b).1, Staged(old(config), b).2 * 100 + Staged(old(config), b).3)
      ensures Staged(old(config), b).1 == 0 && !ans.Ack? ==>
                ans.OutOfRange? && NamesLowest(valid, old(config), Staged(old(config), b).0, ans.fault)
    {
      hide CacheOk, Decoded, Stale, Staged, Sanitized, CacheOf, StaleRule, BadRule;
      CacheShape(valid, config, cache);
      var snapshot := config;
      ghost var was := cache;
      var staleBefore := StaleMask();
      StaleMaskIs(valid, snapshot, was, staleBefore);
      var rc, group, fault := ApplyGroups(b);
      ghost var staged := config;
      if rc != 0 {
        Restore(snapshot, was, b.replace);
        return Refusal(rc, group * 100 + fault);
      }
      if Touches(b) {
        var wrong, tag := CheckRules(staleBefore, snapshot);
        if wrong {
          CacheShape(valid, config, cache);
          Restore(snapshot, was, true);
          return OutOfRange(400 + tag);
        }
      } else {
        OtherGroups(valid, snapshot, staged, was);
      }
      ans := Ack(b.save);
    }

    /** Reload the rules of the staged configuration; when more are wrong than were stale before, `tag`
        is that of the lowest one the batch broke. */
    method CheckRules(staleBefore: set<nat>, ghost before: Config) returns (wrong: bool, tag: nat)
      requires Shape(config) && |cache| == RULES && Shape(before) && staleBefore == StaleOf(valid, before)
      modifies `config, `cache, `invalid
      ensures Valid() && config == Sanitized(valid, old(config))
      ensures wrong <==> Wrong(valid, old(config)) > |StaleOf(valid, before)|
      ensures wrong ==> NamesLowest(valid, before, old(config), 400 + tag)
    {
      hide CacheOk, Decoded, Stale, Sanitized, CacheOf, InvalidOf, StaleOf;
      ghost var staged := config;
      var faults := Reload();
      CacheShape(valid, config, cache);
      StaleMaskIs(valid, config, cache, StaleMask());
      StaleSanitized(valid, staged);
      wrong, tag := faults > |staleBefore|, 0;
      if wrong {
        var bad := invalid + (StaleMask() - staleBefore);
        tag := LowestTag(bad);
        LowestIs(valid, before, staged, bad, tag);
      }
    }

    /** Back to the configuration before the batch, the cache rebuilt from it if need be. */
    method Restore(snapshot: Config, ghost was: seq<Option<Rule>>, reload: bool)
      requires Shape(config) && |cache| == RULES && CacheOk(valid, snapshot, was) && (!reload ==> cache == was)
      modifies `config, `cache, `invalid
      ensures Valid() && config == snapshot && cache == was
    {
      hide Decoded;
      ReloadKeeps(valid, snapshot, was);
      config := snapshot;
      if reload {
        var n := Reload();
      }
    }

    /** Tag of the lowest rule of a mask; 0 for none. */
    method LowestTag(bad: set<nat>) returns (tag: nat)
      ensures tag == 0 ==> forall i: nat :: i < RULES ==> i !in bad
      ensures tag > 0 ==> FIRST_ALARM_TAG <= tag < FIRST_ALARM_TAG + RULES && tag - FIRST_ALARM_TAG in bad
      ensures forall i: nat :: i + FIRST_ALARM_TAG < tag ==> i !in bad
    {
      var i := 0;
      while i < RULES
        invariant 0 <= i <= RULES && forall j: nat :: j < i ==> j !in bad
      {
        if i in bad {
          return FIRST_ALARM_TAG + i;
        }
        i := i + 1;
      }
      tag := 0;
    }
  }

  /** When more rules are wrong than were stale, one of them is invalid or newly stale. */
  lemma MoreWrong(invalid: set<nat>, stale: set<nat>, before: set<nat>)
    ensures |invalid| + |stale| > |before| ==> invalid + (stale - before) != {}
  {
    if invalid + (stale - before) == {} {
      assert invalid <= invalid + (stale - before) && stale - before <= invalid + (stale - before);
      forall i | i in stale
        ensures i in before
      {
        assert i !in stale - before;
      }
      Subset(stale, before);
    }
  }

  lemma LowestIs(valid: Validity, before: Config, staged: Config, bad: set<nat>, tag: nat)
    requires Shape(before) && Shape(staged) && Wrong(valid, staged) > |StaleOf(valid, before)|
    requires bad == InvalidOf(valid, staged) + (StaleOf(valid, staged) - StaleOf(valid, before))
    requires tag == 0 ==> forall i: nat :: i < RULES ==> i !in bad
    requires tag > 0 ==> FIRST_ALARM_TAG <= tag < FIRST_ALARM_TAG + RULES && tag - FIRST_ALARM_TAG in bad
    requires forall i: nat :: i + FIRST_ALARM_TAG < tag ==> i !in bad
    ensures NamesLowest(valid, before, staged, 400 + tag)
  {
    hide BadRule, StaleRule;
    MoreWrong(InvalidOf(valid, staged), StaleOf(valid, staged), StaleOf(valid, before));
    var i :| i in bad;
    assert i < RULES;
    forall k: nat | k < RULES
      ensures Broke(valid, before, staged, k) <==> k in bad
    {
    }
  }

  lemma Subset(a: set<nat>, b: set<nat>)
    requires a <= b
    ensures |a| <= |b|
  {
    assert b == a + (b - a);
  }

  /** What a reload decides for one entry, whatever it did to the others. */
  lemma EntryIs(valid: Validity, now: Config, c: Config, i: nat)
    requires Shape(now) && Shape(c) && now.sensors == c.sensors && i < RULES && now.alarms.rules[i] == c.alarms.rules[i]
    ensures var b := c.alarms.rules[i]; var r := Decoded(valid, b);
      && (BadRule(valid, c, i) <==> b[0] % 2 == 1 && r.None?)
      && (StaleRule(valid, c, i) <==> r.Some? && Stale(now, r.value))
      && Fixed(valid, b) == (if r.Some? then b else Zeros(PACK_LEN))
  {
    var r := Decoded(valid, c.alarms.rules[i]);
    if r.Some? {
      SameStale(now, c, r);
    }
  }

  lemma SameStale(a: Config, b: Config, r: Option<Rule>)
    requires Shape(a) && Shape(b) && a.sensors == b.sensors
    ensures r.Some? ==> (Stale(a, r.value) <==> Stale(b, r.value))
  {
  }

  /** All rule slots emptied. */
  function Emptied(c: Config): Config
    requires Shape(c)
  {
    c.(alarms := c.alarms.(rules := seq(RULES, _ => Zeros(PACK_LEN))))
  }

  lemma CacheShape(valid: Validity, c: Config, cache: seq<Option<Rule>>)
    requires CacheOk(valid, c, cache)
    ensures Shape(c) && |cache| == RULES
  {
  }

  /** The configuration a batch stages, with the result code, group and field of the first failure. */
  function Staged(c: Config, b: Batch): (Config, int, nat, nat)
    requires Shape(c)
  {
    if b.replace && b.vendor then (c, EACCES, 4, 0) else Stage5(Stage4(Stage3(Stage2(Stage1(if b.replace then Emptied(c) else c, b), b), b), b), b)
  }

  function Stage1(c: Config, b: Batch): (Config, int, nat, nat) {
    if b.lorawan.Some? then var a := b.lorawan.value(c.lorawan); (c.(lorawan := a.value), a.rc, 1, a.fault) else (c, 0, 0, 0)
  }

  function Stage2(s: (Config, int, nat, nat), b: Batch): (Config, int, nat, nat) {
    if s.1 == 0 && b.application.Some? then
      var a := b.application.value(s.0.application); (s.0.(application := a.value), a.rc, 2, a.fault)
    else s
  }

  function Stage3(s: (Config, int, nat, nat), b: Batch): (Config, int, nat, nat) {
    if s.1 == 0 && b.sensors.Some? then var a := b.sensors.value(s.0.sensors); (s.0.(sensors := a.value), a.rc, 3, a.fault) else s
  }

  function Stage4(s: (Config, int, nat, nat), b: Batch): (Config, int, nat, nat) {
    if s.1 == 0 && b.alarms.Some? then var a := b.alarms.value(s.0.alarms); (s.0.(alarms := a.value), a.rc, 4, a.fault) else s
  }

  function Stage5(s: (Config, int, nat, nat), b: Batch): (Config, int, nat, nat) {
    if s.1 == 0 && b.p2p.Some? then var a := b.p2p.value(s.0.p2p); (s.0.(p2p := a.value), a.rc, 5, a.fault) else s
  }

  /** A group of a batch, if it is there, can be applied in full; and what it is then. */
  predicate Takes<T>(apply: Option<T -> Applied<T>>, before: T) { apply.Some? ==> apply.value(before).rc == 0 }

  function TakenTo<T>(apply: Option<T -> Applied<T>>, before: T): T {
    if apply.Some? then apply.value(before).value else before
  }

  /** A batch is staged if and only if every group of it can be, and then all of them are in force
      together. */
  lemma AllGroups(valid: Validity, c: Config, b: Batch)
    requires Shape(c) && BatchOk(b)
    ensures var s := Staged(c, b); var alarms := if b.replace then Emptied(c).alarms else c.alarms;
      && (s.1 == 0 <==>
            && !(b.replace && b.vendor) && Takes(b.lorawan, c.lorawan) && Takes(b.application, c.application)
            && Takes(b.sensors, c.sensors) && Takes(b.alarms, alarms) && Takes(b.p2p, c.p2p))
      && (s.1 == 0 ==>
            s.0 == Config(TakenTo(b.lorawan, c.lorawan), TakenTo(b.application, c.application), TakenTo(b.sensors, c.sensors),
                          TakenTo(b.alarms, alarms), TakenTo(b.p2p, c.p2p)))
  {
  }

  function Refusal(rc: int, fault: nat): Answer { if rc == EACCES then NotWritable(fault) else OutOfRange(fault) }

  /** The batch leaves rule `i` invalid, or made it stale. */
  predicate Broke(valid: Validity, before: Config, staged: Config, i: nat)
    requires Shape(before) && Shape(staged)
  {
    i < RULES && (BadRule(valid, staged, i) || (StaleRule(valid, staged, i) && !StaleRule(valid, before, i)))
  }

  /** A fault number names the lowest rule that the batch broke. */
  ghost predicate NamesLowest(valid: Validity, before: Config, staged: Config, fault: nat)
    requires Shape(before) && Shape(staged)
  {
    && fault >= 400 + FIRST_ALARM_TAG && Broke(valid, before, staged, fault - 400 - FIRST_ALARM_TAG)
    && forall j: nat :: j < fault - 400 - FIRST_ALARM_TAG ==> !Broke(valid, before, staged, j)
  }

  /** The batch reloads the rule cache. */
  predicate Touches(b: Batch) { b.alarms.Some? || b.sensors.Some? || b.replace }

  /** Rules that a reload counts as faults. */
  function Wrong(valid: Validity, c: Config): nat
    requires Shape(c)
  {
    |InvalidOf(valid, c)| + |StaleOf(valid, c)|
  }

  lemma StaleMaskIs(valid: Validity, c: Config, cache: seq<Option<Rule>>, mask: set<nat>)
    requires CacheOk(valid, c, cache)
    requires mask == (set i: nat | i < RULES && cache[i].Some? && Stale(c, cache[i].value))
    ensures mask == StaleOf(valid, c)
  {
    hide Decoded, Stale;
  }

  /** Sanitizing drops no valid rule. */
  lemma StaleSanitized(valid: Validity, c: Config)
    requires Shape(c)
    ensures StaleOf(valid, Sanitized(valid, c)) == StaleOf(valid, c)
  {
    hide Unpack, Stale;
    ZerosAreNone(valid);
    var d := Sanitized(valid, c);
    forall i: nat | i < RULES
      ensures StaleRule(valid, d, i) <==> StaleRule(valid, c, i)
    {
      SameStale(d, c, Decoded(valid, c.alarms.rules[i]));
    }
  }

  /** A batch that touches neither rules nor sensor types keeps the cache right. */
  lemma OtherGroups(valid: Validity, c: Config, d: Config, cache: seq<Option<Rule>>)
    requires CacheOk(valid, c, cache) && Shape(d) && d.alarms == c.alarms
    ensures CacheOk(valid, d, cache)
  {
  }

  /** When no rule was stale before, an acknowledged batch drops no rule it sent. */
  lemma AckDropsNothing(valid: Validity, before: Config, staged: Config, i: nat)
    requires Shape(before) && Shape(staged) && Wrong(valid, staged) <= |StaleOf(valid, before)|
    requires StaleOf(valid, before) == {} && i < RULES && staged.alarms.rules[i][0] % 2 == 1
    ensures Sanitized(valid, staged).alarms.rules[i] == staged.alarms.rules[i] && Decoded(valid, staged.alarms.rules[i]).Some?
  {
    hide Unpack;
    assert |InvalidOf(valid, staged)| == 0;
    assert i !in InvalidOf(valid, staged);
  }

  /** A batch whose alarms group writes the bytes of one rule. */
  function RuleBatch(i: nat, bytes: seq<byte>, save: bool): Batch {
    Batch(false, false, None, None, None,
          Some((a: Alarms) => Applied(if i < |a.rules| then a.(rules := a.rules[i := bytes]) else a, 0, 0)), None, save)
  }

  lemma RuleBatchIs(c: Config, i: nat, bytes: seq<byte>, save: bool)
    requires Shape(c) && i < RULES && |bytes| == PACK_LEN
    ensures var b := RuleBatch(i, bytes, save);
      && BatchOk(b) && Touches(b) && b.save == save
      && Staged(c, b) == (c.(alarms := c.alarms.(rules := c.alarms.rules[i := bytes])), 0, 4, 0)
  {
  }

  /** When one was, an invalid rule can be acknowledged: in every configuration with a stale rule,
      overwriting that rule with an invalid one leaves no more rules wrong than were stale, so the batch
      passes, and the rule it sent is dropped. */
  lemma InvalidRuleAcknowledged(valid: Validity, before: Config, cache: seq<Option<Rule>>, i: nat, bad: Rule, save: bool)
    requires CacheOk(valid, before, cache) && i in StaleOf(valid, before) && RuleShape(bad) && !valid(bad)
    ensures var b := RuleBatch(i, Pack(bad), save); var s := Staged(before, b);
      && BatchOk(b) && Touches(b) && Shape(s.0) && s.1 == 0 && s.0.alarms.rules[i] == Pack(bad)
      && Wrong(valid, s.0) == |StaleOf(valid, before)|
      && Sanitized(valid, s.0).alarms.rules[i] == Zeros(PACK_LEN)
  {
    hide Unpack, Pack, Stale, Staged, Touches;
    RuleBatchIs(before, i, Pack(bad), save);
    UnpackPacked(bad);
    ReloadKeeps(valid, before, cache);
    var staged := before.(alarms := before.alarms.(rules := before.alarms.rules[i := Pack(bad)]));
    forall k: nat | k < RULES
      ensures BadRule(valid, staged, k) <==> k == i
      ensures StaleRule(valid, staged, k) <==> k != i && StaleRule(valid, before, k)
    {
      SameStale(staged, before, Decoded(valid, before.alarms.rules[k]));
      assert k !in InvalidOf(valid, before);
    }
    assert InvalidOf(valid, staged) == {i};
    assert StaleOf(valid, staged) == StaleOf(valid, before) - {i};
  }

  /** The same as a run of the handler: acknowledged, and the rule that was sent is not there. */
  method DropsInvalid(store: RuleStore, i: nat, bad: Rule, save: bool) returns (ans: Answer)
    requires store.Valid() && i in StaleOf(store.valid, store.config) && RuleShape(bad) && !store.valid(bad)
    modifies store`config, store`cache, store`invalid
    ensures ans == Ack(save) && store.Valid() && store.config.alarms.rules[i] == Zeros(PACK_LEN)
  {
    hide Staged, Sanitized, Wrong, CacheOk, Pack, Touches, RuleBatch;
    CacheShape(store.valid, store.config, store.cache);
    InvalidRuleAcknowledged(store.valid, store.config, store.cache, i, bad, save);
    RuleBatchIs(store.config, i, Pack(bad), save);
    ans := store.SetParam(RuleBatch(i, Pack(bad), save));
  }
}
