/** Authentication with a device quota (server/auth/auth.go). */
module Auth {
  import opened Wrappers
  import opened Db
  import opened DbProperties

  datatype AuthError = EmptyKey | EmptyHwid | InvalidKey | Refused(error: StoreError)

  /**
   `Authenticate`: finds the user of the key, overrides an administrator's limit in the copy it
   returns, and registers the device.
   */
  method Authenticate(store: Store, key: string, hwid: string, now: real)
    returns (r: Result<(nat, User), AuthError>)
    requires Consistent(store.State())
    modifies store
    ensures store.State() == AuthenticateOn(old(store.State()), key, hwid, now).0
    ensures r == AuthenticateOn(old(store.State()), key, hwid, now).1
  {
    if key == "" {
      return Err(EmptyKey);
    }
    if hwid == "" {
      return Err(EmptyHwid);
    }
    var found := store.GetUserByKey(key);
    if found.None? {
      return Err(InvalidKey);
    }
    UserOfKeyIsUnique(store.State(), key, found.value.0);
    var (id, user) := found.value;
    if user.role == "admin" && user.deviceLimit != 1 {
      user := user.(deviceLimit := 1);
    }
    var registered := store.RegisterDevice(id, hwid, now);
    if registered.Err? {
      return Err(Refused(registered.error));
    }
    return Ok((id, user));
  }

  /** The id of the row with an access key; KeysUnique makes it the only one. */
  ghost function UserOfKey(t: Tables, key: string): (id: nat)
    requires KeyTaken(t, key)
    ensures id in t.users && t.users[id].accessKey == key
  {
    var id :| id in t.users && t.users[id].accessKey == key;
    id
  }

  lemma UserOfKeyIsUnique(t: Tables, key: string, id: nat)
    requires KeysUnique(t) && id in t.users && t.users[id].accessKey == key
    ensures KeyTaken(t, key) && UserOfKey(t, key) == id
  {
  }

  ghost function AuthenticateOn(t: Tables, key: string, hwid: string, now: real)
    : (Tables, Result<(nat, User), AuthError>)
  {
    if key == "" then (t, Err(EmptyKey))
    else if hwid == "" then (t, Err(EmptyHwid))
    else if !KeyTaken(t, key) then (t, Err(InvalidKey))
    else
      var id := UserOfKey(t, key);
      var user := if t.users[id].role == "admin" then t.users[id].(deviceLimit := 1) else t.users[id];
      match RegisterDeviceOn(t, id, hwid, now)
      case (q, Err(e)) => (q, Err(Refused(e)))
      case (q, Ok(_)) => (q, Ok((id, user)))
  }

  /**
   Authentication succeeds exactly for a known key and a device that is already registered or fits
   the quota. A success reports the user's row with the effective limit; a known device leaves the
   count as it was and a new one adds one. A refusal changes neither table.
   */
  lemma AuthenticateSucceedsIff(t: Tables, key: string, hwid: string, now: real)
    requires Consistent(t)
    ensures var (q, r) := AuthenticateOn(t, key, hwid, now);
            && (r.Ok? <==>
                  && key != "" && hwid != ""
                  && exists id :: id in t.users && t.users[id].accessKey == key
                                  && (Registered(t.devices, id, hwid)
                                      || Count(t.devices, id) < EffectiveLimit(t.users[id])))
            && (r.Err? ==> q == t)
            && (r.Ok? ==>
                  var (id, user) := r.value;
                  && id in t.users && t.users[id].accessKey == key
                  && user == (if t.users[id].role == "admin" then t.users[id].(deviceLimit := 1) else t.users[id])
                  && user.deviceLimit == EffectiveLimit(t.users[id])
                  && Registered(q.devices, id, hwid)
                  && q.users == t.users
                  && Count(q.devices, id) == Count(t.devices, id) + (if Registered(t.devices, id, hwid) then 0 else 1)
                  && forall other | other != id :: Count(q.devices, other) == Count(t.devices, other))
    ensures Consistent(AuthenticateOn(t, key, hwid, now).0)
  {
    if key != "" && hwid != "" && KeyTaken(t, key) {
      var id := UserOfKey(t, key);
      RegisterKeeps(t, id, hwid, now);
      if RegisterDeviceOn(t, id, hwid, now).1.Ok? {
        RegisterCounts(t, id, hwid, now);
      }
      forall other | other in t.users && t.users[other].accessKey == key
        ensures other == id
      {
        UserOfKeyIsUnique(t, key, other);
      }
    }
  }

  /** Which error is reported: the empty inputs first, then an unknown key, then the quota. */
  lemma AuthenticateErrors(t: Tables, key: string, hwid: string, now: real)
    requires Consistent(t)
    ensures var r := AuthenticateOn(t, key, hwid, now).1;
            && (r == Err(EmptyKey) <==> key == "")
            && (r == Err(EmptyHwid) <==> key != "" && hwid == "")
            && (r == Err(InvalidKey) <==>
                  key != "" && hwid != "" && forall id | id in t.users :: t.users[id].accessKey != key)
            && (r.Err? && r.error.Refused? ==>
                  exists id | id in t.users && t.users[id].accessKey == key ::
                    r.error.error == LimitExceeded(Count(t.devices, id), EffectiveLimit(t.users[id])))
  {
  }

  /** How registering a device changes the counts. */
  lemma RegisterCounts(t: Tables, uid: nat, hwid: string, now: real)
    requires uid in t.users && RegisterDeviceOn(t, uid, hwid, now).1.Ok?
    ensures var q := RegisterDeviceOn(t, uid, hwid, now).0;
            && q.users == t.users
            && Registered(q.devices, uid, hwid)
            && (forall id :: Count(q.devices, id) == Count(t.devices, id)
                             + if id == uid && !Registered(t.devices, uid, hwid) then 1 else 0)
  {
    var q := RegisterDeviceOn(t, uid, hwid, now).0;
    forall id
      ensures Count(q.devices, id) == Count(t.devices, id)
                                      + if id == uid && !Registered(t.devices, uid, hwid) then 1 else 0
    {
      if Registered(t.devices, uid, hwid) {
        TouchFacts(t.devices, uid, hwid, now, id, hwid);
      } else {
        CountAppend(t.devices, [Device(t.lastDeviceId + 1, uid, hwid, now)], id);
      }
    }
    TouchFacts(t.devices, uid, hwid, now, uid, hwid);
    if !Registered(t.devices, uid, hwid) {
      assert Device(t.lastDeviceId + 1, uid, hwid, now) in q.devices;
    }
  }

  /** A login is recorded: the device's row carries its time, and all other rows are as before. */
  lemma LoginIsRecorded(t: Tables, uid: nat, hwid: string, now: real)
    requires uid in t.users && RegisterDeviceOn(t, uid, hwid, now).1.Ok?
    ensures var q := RegisterDeviceOn(t, uid, hwid, now).0;
            && (exists d :: d in q.devices && d.userId == uid && d.hwid == hwid && d.lastSeen == now)
            && (forall d: Device | d.userId != uid || d.hwid != hwid :: d in q.devices <==> d in t.devices)
  {
    TouchRecords(t.devices, uid, hwid, now);
    var d := Device(t.lastDeviceId + 1, uid, hwid, now);
    assert d in t.devices + [d];
  }

  lemma {:induction false} TouchRecords(ds: seq<Device>, uid: nat, hwid: string, now: real)
    ensures Registered(ds, uid, hwid) ==>
              exists d :: d in Touch(ds, uid, hwid, now) && d.userId == uid && d.hwid == hwid && d.lastSeen == now
    ensures forall d: Device | d.userId != uid || d.hwid != hwid :: d in Touch(ds, uid, hwid, now) <==> d in ds
    decreases |ds|
  {
    if ds != [] {
      TouchRecords(ds[1..], uid, hwid, now);
      var first := if ds[0].userId == uid && ds[0].hwid == hwid then ds[0].(lastSeen := now) else ds[0];
      assert first in Touch(ds, uid, hwid, now);
    }
  }

  /**
   Giving a user a new access key fails exactly when another user has it. On success the new key is
   that user's, the old one is nobody's, and every other user keeps its key.
   */
  lemma NewKeyReplacesOld(t: Tables, id: nat, key: string)
    requires Consistent(t) && id in t.users
    ensures UpdateAccessKeyOn(t, id, key).1
       <==> !KeyTaken(t, key) || UserOfKey(t, key) == id
    ensures !UpdateAccessKeyOn(t, id, key).1 ==> UpdateAccessKeyOn(t, id, key).0 == t
    ensures UpdateAccessKeyOn(t, id, key).1 ==>
              var q := UpdateAccessKeyOn(t, id, key).0;
              && KeyTaken(q, key) && UserOfKey(q, key) == id
              && (t.users[id].accessKey != key ==> !KeyTaken(q, t.users[id].accessKey))
              && q.devices == t.devices && q.users.Keys == t.users.Keys
              && forall other | other in t.users && other != id :: q.users[other] == t.users[other]
  {
    SetKeyKeeps(t, id, key);
    if UpdateAccessKeyOn(t, id, key).1 {
      UserOfKeyIsUnique(UpdateAccessKeyOn(t, id, key).0, key, id);
    }
    if KeyTaken(t, key) {
      var owner := UserOfKey(t, key);
    }
  }

  /** After a reset the whole quota is available again, for that user only. */
  lemma ResetRestoresQuota(t: Tables, id: nat, other: nat)
    requires Consistent(t)
    ensures Count(ResetDevicesOn(t, id).devices, id) == 0
    ensures other != id ==> Count(ResetDevicesOn(t, id).devices, other) == Count(t.devices, other)
    ensures ResetDevicesOn(t, id).users == t.users
  {
    RemovalFacts(t.devices, id, id, "");
    RemovalFacts(t.devices, id, other, "");
  }
}
