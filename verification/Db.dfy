/**
 The two tables of server/db/db.go. Each SQL statement or transaction is one atomic step; the
 constraints declared by `migrate` are checked here as the database checks them.
 */
module Db {
  import opened Wrappers

  datatype StoreError = NoRows | LimitExceeded(count: nat, limit: int) | ConstraintFailed

  datatype User = User(
    username: string, accessKey: string, apiKey: string, role: string, deviceLimit: int, rateLimit: int)

  datatype Device = Device(id: nat, userId: nat, hwid: string, lastSeen: real)

  /**
   `users` maps ids to rows; `lastUserId` and `lastDeviceId` are the AUTOINCREMENT counters, the
   largest ids ever given out.
   */
  datatype Tables = Tables(users: map<nat, User>, lastUserId: nat, devices: seq<Device>, lastDeviceId: nat)

  const EMPTY := Tables(map[], 0, [], 0)

  predicate RoleAllowed(role: string) {
    role == "owner" || role == "admin" || role == "user"
  }

  predicate KeyTaken(t: Tables, key: string) {
    exists id <- t.users :: t.users[id].accessKey == key
  }

  // ---------- Users ----------

  /** `CreateUser`: an INSERT that fails on a taken access key, an unknown role or a bad limit. */
  function CreateUserOn(t: Tables, u: User): (Tables, Result<nat, StoreError>) {
    if KeyTaken(t, u.accessKey) || !RoleAllowed(u.role) || !(1 <= u.deviceLimit <= 5) then (t, Err(ConstraintFailed))
    else
      var id := t.lastUserId + 1;
      (t.(users := t.users[id := u], lastUserId := id), Ok(id))
  }

  /** `UpdateUserAccessKey`: no error when the user does not exist, one when the key is taken. */
  function UpdateAccessKeyOn(t: Tables, id: nat, key: string): (Tables, bool) {
    if id !in t.users then (t, true)
    else if exists other <- t.users :: other != id && t.users[other].accessKey == key then (t, false)
    else (t.(users := t.users[id := t.users[id].(accessKey := key)]), true)
  }

  function UpdateApiKeyOn(t: Tables, id: nat, key: string): Tables {
    if id !in t.users then t
    else t.(users := t.users[id := t.users[id].(apiKey := key)])
  }

  /**
   `DeleteUser`. `cascades` says whether the connection that runs it enforces foreign keys: the
   PRAGMA is issued once, and applies to one connection of the pool only.
   */
  function DeleteUserOn(t: Tables, id: nat, cascades: bool): Tables {
    if id !in t.users then t
    else t.(users := t.users - {id}, devices := if cascades then DevicesNotOf(t.devices, id) else t.devices)
  }

  // ---------- Devices ----------

  function DevicesNotOf(ds: seq<Device>, uid: nat): (kept: seq<Device>)
    ensures forall d :: d in kept <==> d in ds && d.userId != uid
  {
    if ds == [] then []
    else (if ds[0].userId == uid then [] else [ds[0]]) + DevicesNotOf(ds[1..], uid)
  }

  /** `SELECT COUNT(*) FROM devices WHERE user_id = uid` */
  function Count(ds: seq<Device>, uid: nat): nat {
    if ds == [] then 0
    else (if ds[0].userId == uid then 1 else 0) + Count(ds[1..], uid)
  }

  predicate Registered(ds: seq<Device>, uid: nat, hwid: string) {
    exists d <- ds :: d.userId == uid && d.hwid == hwid
  }

  /** `UPDATE devices SET last_seen = now WHERE user_id = uid AND hwid = hwid` */
  function Touch(ds: seq<Device>, uid: nat, hwid: string, now: real): (touched: seq<Device>)
    ensures |touched| == |ds|
    ensures forall i | 0 <= i < |ds| ::
              touched[i] == if ds[i].userId == uid && ds[i].hwid == hwid then ds[i].(lastSeen := now) else ds[i]
  {
    if ds == [] then []
    else
      [if ds[0].userId == uid && ds[0].hwid == hwid then ds[0].(lastSeen := now) else ds[0]]
      + Touch(ds[1..], uid, hwid, now)
  }

  function EffectiveLimit(u: User): int {
    if u.role == "admin" then 1 else u.deviceLimit
  }

  /** `RegisterDevice`, one transaction: a failing one is rolled back. */
  function RegisterDeviceOn(t: Tables, uid: nat, hwid: string, now: real): (Tables, Result<(), StoreError>) {
    if uid !in t.users then (t, Err(NoRows))
    else if Registered(t.devices, uid, hwid) then
      (t.(devices := Touch(t.devices, uid, hwid, now)), Ok(()))
    else if Count(t.devices, uid) >= EffectiveLimit(t.users[uid]) then
      (t, Err(LimitExceeded(Count(t.devices, uid), EffectiveLimit(t.users[uid]))))
    else
      var id := t.lastDeviceId + 1;
      (t.(devices := t.devices + [Device(id, uid, hwid, now)], lastDeviceId := id), Ok(()))
  }

  function ResetDevicesOn(t: Tables, uid: nat): Tables {
    t.(devices := DevicesNotOf(t.devices, uid))
  }

  // ---------- The store ----------

  class Store {
    var users: map<nat, User>
    var lastUserId: nat
    var devices: seq<Device>
    var lastDeviceId: nat

    ghost function State(): Tables
      reads this
    {
      Tables(users, lastUserId, devices, lastDeviceId)
    }

    constructor (t: Tables)
      ensures State() == t
    {
      users, lastUserId, devices, lastDeviceId := t.users, t.lastUserId, t.devices, t.lastDeviceId;
    }

    method CreateUser(u: User) returns (r: Result<nat, StoreError>)
      modifies this
      ensures (State(), r) == CreateUserOn(old(State()), u)
      ensures r.Ok? <==> (forall id | id in old(users) :: old(users[id].accessKey) != u.accessKey)
                         && u.role in {"owner", "admin", "user"} && 1 <= u.deviceLimit <= 5
      ensures r.Ok? ==> r.value > old(lastUserId) && users == old(users)[r.value := u] && lastUserId == r.value
      ensures devices == old(devices) && lastDeviceId == old(lastDeviceId)
      ensures r.Err? ==> State() == old(State())
    {
      if KeyTaken(Tables(users, lastUserId, devices, lastDeviceId), u.accessKey)
         || !RoleAllowed(u.role) || !(1 <= u.deviceLimit <= 5) {
        return Err(ConstraintFailed);
      }
      lastUserId := lastUserId + 1;
      users := users[lastUserId := u];
      return Ok(lastUserId);
    }

    /** `GetUserByKey`: the id and row with this access key, if any. */
    method GetUserByKey(key: string) returns (r: Option<(nat, User)>)
      ensures r.None? <==> !KeyTaken(State(), key)
      ensures r.Some? ==> r.value.0 in users && users[r.value.0] == r.value.1 && r.value.1.accessKey == key
    {
      if id :| id in users && users[id].accessKey == key {
        return Some((id, users[id]));
      }
      return None;
    }

    method UpdateUserAccessKey(id: nat, key: string) returns (ok: bool)
      modifies this
      ensures (State(), ok) == UpdateAccessKeyOn(old(State()), id, key)
      ensures ok <==> id !in users || forall other | other in users && other != id :: old(users[other].accessKey) != key
      ensures users.Keys == old(users.Keys) && devices == old(devices)
      ensures forall other | other in users && other != id :: users[other] == old(users[other])
      ensures ok && id in users ==> users[id] == old(users[id]).(accessKey := key)
      ensures lastUserId == old(lastUserId) && lastDeviceId == old(lastDeviceId)
    {
      if id !in users {
        return true;
      }
      if exists other <- users :: other != id && users[other].accessKey == key {
        return false;
      }
      users := users[id := users[id].(accessKey := key)];
      return true;
    }

    method UpdateUserAPIKey(id: nat, key: string)
      modifies this
      ensures State() == UpdateApiKeyOn(old(State()), id, key)
      ensures users.Keys == old(users.Keys) && devices == old(devices)
      ensures forall other | other in users ::
                users[other] == if other == id then old(users[other]).(apiKey := key) else old(users[other])
    {
      if id in users {
        users := users[id := users[id].(apiKey := key)];
      }
    }

    method DeleteUser(id: nat, cascades: bool)
      modifies this
      ensures State() == DeleteUserOn(old(State()), id, cascades)
      ensures users == old(users) - {id} && lastUserId == old(lastUserId)
      ensures !cascades || id !in old(users) ==> devices == old(devices)
      ensures cascades && id in old(users) ==> forall d :: d in devices <==> d in old(devices) && d.userId != id
    {
      if id in users {
        users := users - {id};
        if cascades {
          devices := DevicesNotOf(devices, id);
        }
      }
    }

    /** `RegisterDevice`: limit, count, lookup, then update or insert, as one transaction. */
    method RegisterDevice(userId: nat, hwid: string, now: real) returns (r: Result<(), StoreError>)
      modifies this
      ensures (State(), r) == RegisterDeviceOn(old(State()), userId, hwid, now)
      ensures users == old(users) && lastUserId == old(lastUserId)
      ensures userId !in users <==> r == Err(NoRows)
      ensures r.Err? ==> devices == old(devices) && lastDeviceId == old(lastDeviceId)
      ensures userId in users ==>
                var known := exists d | d in old(devices) :: d.userId == userId && d.hwid == hwid;
                var limit := if users[userId].role == "admin" then 1 else users[userId].deviceLimit;
                var count := Count(old(devices), userId);
                && r == (if known || count < limit then Ok(()) else Err(LimitExceeded(count, limit)))
                && (r.Ok? && !known ==> devices == old(devices) + [Device(lastDeviceId, userId, hwid, now)])
                && (known ==> devices == Touch(old(devices), userId, hwid, now))
    {
      if userId !in users {
        return Err(NoRows);
      }
      var limit := users[userId].deviceLimit;
      if users[userId].role == "admin" {
        limit := 1;
      }
      var count := Count(devices, userId);
      if Registered(devices, userId, hwid) {
        devices := Touch(devices, userId, hwid, now);
      } else {
        if count >= limit {
          return Err(LimitExceeded(count, limit));
        }
        lastDeviceId := lastDeviceId + 1;
        devices := devices + [Device(lastDeviceId, userId, hwid, now)];
      }
      return Ok(());
    }

    method ResetUserDevices(userId: nat)
      modifies this
      ensures State() == ResetDevicesOn(old(State()), userId)
      ensures users == old(users)
      ensures forall d :: d in devices <==> d in old(devices) && d.userId != userId
    {
      devices := DevicesNotOf(devices, userId);
    }
  }
}
