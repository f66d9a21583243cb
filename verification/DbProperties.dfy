/** What the two tables satisfy over every run of statements, and the device quota in particular. */
module DbProperties {
  import opened Collections
  import opened Db

  // ---------- Counting and listing devices ----------

  lemma {:induction false} CountAppend(a: seq<Device>, b: seq<Device>, uid: nat)
    ensures Count(a + b, uid) == Count(a, uid) + Count(b, uid)
    decreases |a|
  {
    if a == [] {
      assert a + b == b;
    } else {
      assert (a + b)[1..] == a[1..] + b;
      CountAppend(a[1..], b, uid);
    }
  }

  lemma {:induction false} RemovalFacts(ds: seq<Device>, gone: nat, uid: nat, hwid: string)
    ensures Count(DevicesNotOf(ds, gone), uid) == if uid == gone then 0 else Count(ds, uid)
    ensures Registered(DevicesNotOf(ds, gone), uid, hwid) <==> uid != gone && Registered(ds, uid, hwid)
    decreases |ds|
  {
    if ds != [] {
      RemovalFacts(ds[1..], gone, uid, hwid);
      if ds[0].userId == gone {
        assert DevicesNotOf(ds, gone) == DevicesNotOf(ds[1..], gone);
      } else {
        assert DevicesNotOf(ds, gone)[1..] == DevicesNotOf(ds[1..], gone);
      }
    }
  }

  lemma {:induction false} TouchFacts(ds: seq<Device>, who: nat, what: string, now: real, uid: nat, hwid: string)
    ensures Count(Touch(ds, who, what, now), uid) == Count(ds, uid)
    ensures Registered(Touch(ds, who, what, now), uid, hwid) <==> Registered(ds, uid, hwid)
    ensures forall d :: d in Touch(ds, who, what, now) ==> exists c :: c in ds && c.userId == d.userId
    decreases |ds|
  {
    if ds != [] {
      TouchFacts(ds[1..], who, what, now, uid, hwid);
    }
  }

  /** No two rows have the same user and hardware id. */
  ghost predicate NoDuplicates(ds: seq<Device>) {
    forall i, j | 0 <= i < j < |ds| :: ds[i].userId != ds[j].userId || ds[i].hwid != ds[j].hwid
  }

  lemma NoDuplicatesCons(ds: seq<Device>)
    requires ds != []
    ensures NoDuplicates(ds) <==> NoDuplicates(ds[1..]) && !Registered(ds[1..], ds[0].userId, ds[0].hwid)
  {
    var rest := ds[1..];
    if NoDuplicates(ds) {
      forall i, j | 0 <= i < j < |rest|
        ensures rest[i].userId != rest[j].userId || rest[i].hwid != rest[j].hwid
      {
        assert rest[i] == ds[i + 1] && rest[j] == ds[j + 1];
      }
      forall d | d in rest
        ensures d.userId != ds[0].userId || d.hwid != ds[0].hwid
      {
        var j :| 0 <= j < |rest| && rest[j] == d;
        assert ds[j + 1] == d;
      }
    }
    if NoDuplicates(rest) && !Registered(rest, ds[0].userId, ds[0].hwid) {
      forall i, j | 0 <= i < j < |ds|
        ensures ds[i].userId != ds[j].userId || ds[i].hwid != ds[j].hwid
      {
        assert ds[j] == rest[j - 1] && ds[j] in rest;
        if i > 0 {
          assert ds[i] == rest[i - 1];
        }
      }
    }
  }

  lemma {:induction false} RemovalKeepsNoDuplicates(ds: seq<Device>, gone: nat)
    requires NoDuplicates(ds)
    ensures NoDuplicates(DevicesNotOf(ds, gone))
    decreases |ds|
  {
    if ds != [] {
      NoDuplicatesCons(ds);
      RemovalKeepsNoDuplicates(ds[1..], gone);
      RemovalFacts(ds[1..], gone, ds[0].userId, ds[0].hwid);
      if ds[0].userId != gone {
        assert DevicesNotOf(ds, gone)[1..] == DevicesNotOf(ds[1..], gone);
        NoDuplicatesCons(DevicesNotOf(ds, gone));
      }
    }
  }

  lemma {:induction false} TouchKeepsNoDuplicates(ds: seq<Device>, uid: nat, hwid: string, now: real)
    requires NoDuplicates(ds)
    ensures NoDuplicates(Touch(ds, uid, hwid, now))
    decreases |ds|
  {
    if ds != [] {
      var ts := Touch(ds, uid, hwid, now);
      NoDuplicatesCons(ds);
      TouchKeepsNoDuplicates(ds[1..], uid, hwid, now);
      assert ts[1..] == Touch(ds[1..], uid, hwid, now);
      TouchFacts(ds[1..], uid, hwid, now, ds[0].userId, ds[0].hwid);
      NoDuplicatesCons(ts);
    }
  }

  lemma InsertKeepsNoDuplicates(ds: seq<Device>, d: Device)
    requires NoDuplicates(ds) && !Registered(ds, d.userId, d.hwid)
    ensures NoDuplicates(ds + [d])
  {
    forall i | 0 <= i < |ds|
      ensures ds[i].userId != d.userId || ds[i].hwid != d.hwid
    {
      assert ds[i] in ds;
    }
  }

  // ---------- The invariant ----------

  ghost predicate KeysUnique(t: Tables) {
    forall i, j | i in t.users && j in t.users && t.users[i].accessKey == t.users[j].accessKey :: i == j
  }

  /** The quota and the table constraints; a device row may outlive its user. */
  ghost predicate Consistent(t: Tables) {
    && (forall id | id in t.users ::
          id <= t.lastUserId && RoleAllowed(t.users[id].role) && 1 <= t.users[id].deviceLimit <= 5)
    && KeysUnique(t)
    && NoDuplicates(t.devices)
    && (forall d | d in t.devices :: d.userId <= t.lastUserId)
    && (forall id | id in t.users :: Count(t.devices, id) <= EffectiveLimit(t.users[id]))
  }

  lemma {:induction false} NoRowsAboveLast(ds: seq<Device>, last: nat, uid: nat)
    requires forall d | d in ds :: d.userId <= last
    requires uid > last
    ensures Count(ds, uid) == 0
    decreases |ds|
  {
    if ds != [] {
      NoRowsAboveLast(ds[1..], last, uid);
    }
  }

  datatype Op =
    | Create(user: User)
    | SetAccessKey(id: nat, key: string)
    | SetApiKey(id: nat, key: string)
    | Delete(id: nat, cascades: bool)
    | Register(id: nat, hwid: string, now: real)
    | Reset(id: nat)

  /** The tables after a statement, and whether it succeeded. */
  function Apply(t: Tables, op: Op): (Tables, bool) {
    match op
    case Create(u) => var (q, r) := CreateUserOn(t, u); (q, r.Ok?)
    case SetAccessKey(id, key) => UpdateAccessKeyOn(t, id, key)
    case SetApiKey(id, key) => (UpdateApiKeyOn(t, id, key), true)
    case Delete(id, cascades) => (DeleteUserOn(t, id, cascades), true)
    case Register(id, hwid, now) => var (q, r) := RegisterDeviceOn(t, id, hwid, now); (q, r.Ok?)
    case Reset(id) => (ResetDevicesOn(t, id), true)
  }

  function Run(t: Tables, ops: seq<Op>): Tables {
    if ops == [] then t else Apply(Run(t, ops[..|ops| - 1]), ops[|ops| - 1]).0
  }

  /**
   A created user gets an id above every id ever used, so no device row can carry it: the user starts
   with no devices even if rows of deleted users were left behind.
   */
  lemma NewUserStartsEmpty(t: Tables, u: User)
    requires Consistent(t) && CreateUserOn(t, u).1.Ok?
    ensures var (q, id) := (CreateUserOn(t, u).0, CreateUserOn(t, u).1.value);
            && id !in t.users && id == q.lastUserId > t.lastUserId
            && q.users == t.users[id := u] && q.devices == t.devices
            && Count(q.devices, id) == 0 && (forall hwid :: !Registered(q.devices, id, hwid))
            && Consistent(q)
  {
    NoRowsAboveLast(t.devices, t.lastUserId, t.lastUserId + 1);
  }

  lemma RegisterKeeps(t: Tables, uid: nat, hwid: string, now: real)
    requires Consistent(t)
    ensures Consistent(RegisterDeviceOn(t, uid, hwid, now).0)
  {
    var q := RegisterDeviceOn(t, uid, hwid, now).0;
    if q != t {
      if Registered(t.devices, uid, hwid) {
        TouchKeepsNoDuplicates(t.devices, uid, hwid, now);
        forall id
          ensures Count(q.devices, id) == Count(t.devices, id)
        {
          TouchFacts(t.devices, uid, hwid, now, id, hwid);
        }
        TouchFacts(t.devices, uid, hwid, now, uid, hwid);
      } else {
        var d := Device(t.lastDeviceId + 1, uid, hwid, now);
        InsertKeepsNoDuplicates(t.devices, d);
        forall id
          ensures Count(q.devices, id) == Count(t.devices, id) + if id == uid then 1 else 0
        {
          CountAppend(t.devices, [d], id);
        }
      }
    }
  }

  lemma RemovalKeeps(t: Tables, gone: nat)
    requires Consistent(t)
    ensures Consistent(ResetDevicesOn(t, gone))
  {
    RemovalKeepsNoDuplicates(t.devices, gone);
    RemovalFacts(t.devices, gone, gone, "");
    forall id | id in t.users
      ensures Count(DevicesNotOf(t.devices, gone), id) <= EffectiveLimit(t.users[id])
    {
      RemovalFacts(t.devices, gone, id, "");
    }
  }

  lemma DeleteKeeps(t: Tables, gone: nat, cascades: bool)
    requires Consistent(t)
    ensures Consistent(DeleteUserOn(t, gone, cascades))
  {
    RemovalKeeps(t, gone);
  }

  lemma SetKeyKeeps(t: Tables, id: nat, key: string)
    requires Consistent(t)
    ensures Consistent(UpdateAccessKeyOn(t, id, key).0)
    ensures Consistent(UpdateApiKeyOn(t, id, key))
  {
  }

  lemma ApplyKeeps(t: Tables, op: Op)
    requires Consistent(t)
    ensures Consistent(Apply(t, op).0)
    ensures t.lastUserId <= Apply(t, op).0.lastUserId
  {
    hide Consistent;
    match op {
      case Create(u) =>
        if CreateUserOn(t, u).1.Ok? {
          NewUserStartsEmpty(t, u);
        }
      case SetAccessKey(id, key) =>
        SetKeyKeeps(t, id, key);
      case SetApiKey(id, key) =>
        SetKeyKeeps(t, id, key);
      case Delete(id, cascades) =>
        DeleteKeeps(t, id, cascades);
      case Register(id, hwid, now) =>
        RegisterKeeps(t, id, hwid, now);
      case Reset(id) =>
        RemovalKeeps(t, id);
    }
  }

  /**
   In every reachable state each user has at most as many devices as the effective limit, no device
   is listed twice, and access keys are unique, whether or not deletions cascade.
   */
  lemma {:induction false} QuotaHolds(ops: seq<Op>)
    ensures Consistent(Run(EMPTY, ops))
    ensures var t := Run(EMPTY, ops);
            forall id | id in t.users ::
              Count(t.devices, id) <= if t.users[id].role == "admin" then 1 else t.users[id].deviceLimit
    decreases |ops|
  {
    if ops != [] {
      QuotaHolds(ops[..|ops| - 1]);
      ApplyKeeps(Run(EMPTY, ops[..|ops| - 1]), ops[|ops| - 1]);
    }
  }

  lemma {:induction false} LastUserIdGrows(ops: seq<Op>, j: nat, k: nat)
    requires j <= k <= |ops|
    ensures Run(EMPTY, ops[..j]).lastUserId <= Run(EMPTY, ops[..k]).lastUserId
    decreases k
  {
    if j < k {
      LastUserIdGrows(ops, j, k - 1);
      assert ops[..k][..k - 1] == ops[..k - 1];
      QuotaHolds(ops[..k - 1]);
      ApplyKeeps(Run(EMPTY, ops[..k - 1]), ops[k - 1]);
    }
  }

  /** No run gives the same user id twice. */
  lemma UserIdsAreNeverReused(ops: seq<Op>, j: nat, k: nat)
    requires j < k < |ops| && ops[j].Create? && ops[k].Create?
    requires CreateUserOn(Run(EMPTY, ops[..j]), ops[j].user).1.Ok?
    requires CreateUserOn(Run(EMPTY, ops[..k]), ops[k].user).1.Ok?
    ensures CreateUserOn(Run(EMPTY, ops[..j]), ops[j].user).1.value
          < CreateUserOn(Run(EMPTY, ops[..k]), ops[k].user).1.value
  {
    assert ops[..j + 1][..j] == ops[..j];
    LastUserIdGrows(ops, j + 1, k);
  }

  /** Device rows are in the order of their ids, none above the last one given out. */
  ghost predicate IdsAscend(ds: seq<Device>, last: nat) {
    && (forall i, j | 0 <= i < j < |ds| :: ds[i].id < ds[j].id)
    && (forall d | d in ds :: d.id <= last)
  }

  lemma IdsAscendCons(d: Device, rest: seq<Device>, last: nat)
    ensures IdsAscend([d] + rest, last)
       <==> IdsAscend(rest, last) && d.id <= last && forall c | c in rest :: d.id < c.id
  {
    var ds := [d] + rest;
    if IdsAscend(ds, last) {
      forall i, j | 0 <= i < j < |rest|
        ensures rest[i].id < rest[j].id
      {
        assert ds[i + 1] == rest[i] && ds[j + 1] == rest[j];
      }
      forall c | c in rest
        ensures d.id < c.id
      {
        var i :| 0 <= i < |rest| && rest[i] == c;
        assert ds[0] == d && ds[i + 1] == c && ds[0].id < ds[i + 1].id;
      }
      assert forall c | c in rest :: c in ds;
    }
    if IdsAscend(rest, last) && d.id <= last && forall c | c in rest :: d.id < c.id {
      forall i, j | 0 <= i < j < |ds|
        ensures ds[i].id < ds[j].id
      {
        assert rest[j - 1] in rest;
      }
    }
  }

  lemma {:induction false} RemovalKeepsAscending(ds: seq<Device>, gone: nat, last: nat)
    requires IdsAscend(ds, last)
    ensures IdsAscend(DevicesNotOf(ds, gone), last)
    decreases |ds|
  {
    if ds != [] {
      var rest := DevicesNotOf(ds[1..], gone);
      assert ds == [ds[0]] + ds[1..];
      IdsAscendCons(ds[0], ds[1..], last);
      RemovalKeepsAscending(ds[1..], gone, last);
      IdsAscendCons(ds[0], rest, last);
      hide IdsAscend;
      assert DevicesNotOf(ds, gone) == if ds[0].userId == gone then rest else [ds[0]] + rest;
    }
  }

  /** Over every run no two device rows ever have the same id. */
  lemma {:induction false} DeviceIdsAscend(ops: seq<Op>)
    ensures IdsAscend(Run(EMPTY, ops).devices, Run(EMPTY, ops).lastDeviceId)
    decreases |ops|
  {
    if ops != [] {
      var t, op := Run(EMPTY, ops[..|ops| - 1]), ops[|ops| - 1];
      DeviceIdsAscend(ops[..|ops| - 1]);
      match op {
        case Delete(id, _) => RemovalKeepsAscending(t.devices, id, t.lastDeviceId);
        case Reset(id) => RemovalKeepsAscending(t.devices, id, t.lastDeviceId);
        case Register(id, hwid, now) => RegisterKeepsAscending(t, id, hwid, now);
        case _ =>
      }
    }
  }

  lemma RegisterKeepsAscending(t: Tables, uid: nat, hwid: string, now: real)
    requires IdsAscend(t.devices, t.lastDeviceId)
    ensures var q := RegisterDeviceOn(t, uid, hwid, now).0; IdsAscend(q.devices, q.lastDeviceId)
  {
    TouchKeepsAscending(t.devices, Touch(t.devices, uid, hwid, now), t.lastDeviceId);
    InsertKeepsAscending(t.devices, Device(t.lastDeviceId + 1, uid, hwid, now), t.lastDeviceId);
    hide Count, Registered, IdsAscend;
  }

  lemma TouchKeepsAscending(ds: seq<Device>, touched: seq<Device>, last: nat)
    requires IdsAscend(ds, last) && |touched| == |ds|
    requires forall i | 0 <= i < |ds| :: touched[i].id == ds[i].id
    ensures IdsAscend(touched, last)
  {
    forall d | d in touched
      ensures d.id <= last
    {
      var i :| 0 <= i < |touched| && touched[i] == d;
      assert ds[i] in ds;
    }
  }

  lemma InsertKeepsAscending(ds: seq<Device>, d: Device, last: nat)
    requires IdsAscend(ds, last) && d.id == last + 1
    ensures IdsAscend(ds + [d], last + 1)
  {
    assert forall i | 0 <= i < |ds| :: ds[i] in ds;
    assert forall c | c in ds + [d] :: c in ds || c == d;
  }

  // ---------- Orphans ----------

  ghost predicate NoOrphans(t: Tables) {
    forall d | d in t.devices :: d.userId in t.users
  }

  /** Deleting a user keeps every device owned exactly if it cascades or the user had no devices. */
  lemma DeleteKeepsOwnershipIff(t: Tables, id: nat, cascades: bool)
    requires NoOrphans(t) && id in t.users
    ensures NoOrphans(DeleteUserOn(t, id, cascades)) <==> cascades || Count(t.devices, id) == 0
  {
    RemovalFacts(t.devices, id, id, "");
    CountZeroIff(t.devices, id);
  }

  lemma {:induction false} CountZeroIff(ds: seq<Device>, uid: nat)
    ensures Count(ds, uid) == 0 <==> forall d | d in ds :: d.userId != uid
    decreases |ds|
  {
    if ds != [] {
      CountZeroIff(ds[1..], uid);
    }
  }

  // ---------- Devices admitted over a run ----------

  ghost function Hwids(ds: seq<Device>, uid: nat): set<string> {
    set d | d in ds && d.userId == uid :: d.hwid
  }

  lemma {:induction false} HwidsCounted(ds: seq<Device>, uid: nat)
    ensures |Hwids(ds, uid)| <= Count(ds, uid)
    ensures NoDuplicates(ds) ==> |Hwids(ds, uid)| == Count(ds, uid)
    decreases |ds|
  {
    if ds != [] {
      var rest := ds[1..];
      HwidsCounted(rest, uid);
      NoDuplicatesCons(ds);
      if ds[0].userId == uid {
        assert Hwids(ds, uid) == Hwids(rest, uid) + {ds[0].hwid};
        assert ds[0].hwid in Hwids(rest, uid) <==> Registered(rest, uid, ds[0].hwid);
      } else {
        assert Hwids(ds, uid) == Hwids(rest, uid);
      }
    }
  }

  /** The hardware ids that got through for a user during a run. */
  ghost function AdmittedHwids(t: Tables, ops: seq<Op>, uid: nat): set<string> {
    if ops == [] then {}
    else
      var last := ops[|ops| - 1];
      AdmittedHwids(t, ops[..|ops| - 1], uid)
      + if last.Register? && last.id == uid && Apply(Run(t, ops[..|ops| - 1]), last).1 then {last.hwid} else {}
  }

  lemma HwidsAreRegistered(ds: seq<Device>, uid: nat, hwid: string)
    ensures hwid in Hwids(ds, uid) <==> Registered(ds, uid, hwid)
  {
  }

  /** A statement that neither resets nor deletes a user keeps its devices, and adds the one that got through. */
  lemma ApplyOnRegistered(t: Tables, op: Op, uid: nat, hwid: string)
    requires op != Reset(uid) && !(op.Delete? && op.id == uid)
    ensures Registered(Apply(t, op).0.devices, uid, hwid)
       <==> Registered(t.devices, uid, hwid)
            || (op.Register? && op.id == uid && op.hwid == hwid && Apply(t, op).1)
  {
    hide Registered;
    match op {
      case Delete(id, _) => RemovalFacts(t.devices, id, uid, hwid);
      case Reset(id) => RemovalFacts(t.devices, id, uid, hwid);
      case Register(id, h, now) =>
        TouchFacts(t.devices, id, h, now, uid, hwid);
        if Apply(t, op).1 && !Registered(t.devices, id, h) {
          RegisteredAfterInsert(t.devices, Device(t.lastDeviceId + 1, id, h, now), uid, hwid);
        }
      case _ =>
    }
  }

  lemma RegisteredAfterInsert(ds: seq<Device>, d: Device, uid: nat, hwid: string)
    ensures Registered(ds + [d], uid, hwid) <==> Registered(ds, uid, hwid) || (d.userId == uid && d.hwid == hwid)
  {
    assert forall c :: c in ds + [d] <==> c in ds || c == d;
  }

  /** A statement that neither resets nor deletes a user keeps its limit, and adds what got through. */
  lemma ApplyOnHwids(t: Tables, op: Op, uid: nat)
    requires Consistent(t) && uid in t.users
    requires op != Reset(uid) && !(op.Delete? && op.id == uid)
    ensures var q := Apply(t, op).0;
            && uid in q.users && EffectiveLimit(q.users[uid]) == EffectiveLimit(t.users[uid])
            && Hwids(q.devices, uid)
               == Hwids(t.devices, uid) + if op.Register? && op.id == uid && Apply(t, op).1 then {op.hwid} else {}
  {
    hide Hwids;
    var q := Apply(t, op).0;
    forall hwid
      ensures hwid in Hwids(q.devices, uid)
         <==> hwid in Hwids(t.devices, uid)
              || (op.Register? && op.id == uid && op.hwid == hwid && Apply(t, op).1)
    {
      HwidsAreRegistered(t.devices, uid, hwid);
      HwidsAreRegistered(q.devices, uid, hwid);
      ApplyOnRegistered(t, op, uid, hwid);
    }
  }

  /** No statement of a run resets or deletes the user. */
  predicate Spares(ops: seq<Op>, uid: nat) {
    forall k | 0 <= k < |ops| :: ops[k] != Reset(uid) && !(ops[k].Delete? && ops[k].id == uid)
  }

  /** A user's devices are exactly those it had and those that got through since. */
  lemma {:induction false} DevicesAreThoseAdmitted(t: Tables, ops: seq<Op>, uid: nat)
    requires Consistent(t) && uid in t.users && Spares(ops, uid)
    ensures var q := Run(t, ops);
            && Consistent(q) && uid in q.users
            && EffectiveLimit(q.users[uid]) == EffectiveLimit(t.users[uid])
            && Hwids(q.devices, uid) == Hwids(t.devices, uid) + AdmittedHwids(t, ops, uid)
    decreases |ops|
  {
    if ops != [] {
      var before := ops[..|ops| - 1];
      DevicesAreThoseAdmitted(t, before, uid);
      ApplyKeeps(Run(t, before), ops[|ops| - 1]);
      ApplyOnHwids(Run(t, before), ops[|ops| - 1], uid);
      hide Hwids, Consistent, Apply;
    }
  }

  /**
   As long as a user is neither reset nor deleted, at most as many different devices as the effective
   limit ever get through, however the statements interleave.
   */
  lemma AtMostLimitDevicesGetThrough(t: Tables, ops: seq<Op>, uid: nat)
    requires Consistent(t) && uid in t.users && Spares(ops, uid)
    ensures |Hwids(t.devices, uid) + AdmittedHwids(t, ops, uid)| <= EffectiveLimit(t.users[uid])
    ensures |AdmittedHwids(t, ops, uid)| <= EffectiveLimit(t.users[uid])
  {
    DevicesAreThoseAdmitted(t, ops, uid);
    var ds := Run(t, ops).devices;
    HwidsCounted(ds, uid);
    SubsetSize(AdmittedHwids(t, ops, uid), Hwids(ds, uid));
  }

  /** After such a run a device gets through exactly if it is one of these devices, or they are fewer than the limit. */
  lemma GetsThroughIff(t: Tables, ops: seq<Op>, uid: nat, hwid: string, now: real)
    requires Consistent(t) && uid in t.users && Spares(ops, uid)
    ensures var known := Hwids(t.devices, uid) + AdmittedHwids(t, ops, uid);
            RegisterDeviceOn(Run(t, ops), uid, hwid, now).1.Ok?
            <==> hwid in known || |known| < if t.users[uid].role == "admin" then 1 else t.users[uid].deviceLimit
  {
    DevicesAreThoseAdmitted(t, ops, uid);
    HwidsCounted(Run(t, ops).devices, uid);
    HwidsAreRegistered(Run(t, ops).devices, uid, hwid);
    hide Hwids, Registered, AdmittedHwids, Run;
  }
}
