/** Authentication among other statements: what stays true over runs, and what can change within a call. */
module AuthRuns {
  import opened Wrappers
  import opened Db
  import opened DbProperties
  import opened Auth

  lemma {:induction false} RunKeeps(t: Tables, ops: seq<Op>)
    requires Consistent(t)
    ensures Consistent(Run(t, ops)) && t.lastUserId <= Run(t, ops).lastUserId
    decreases |ops|
  {
    hide Consistent;
    if ops != [] {
      RunKeeps(t, ops[..|ops| - 1]);
      ApplyKeeps(Run(t, ops[..|ops| - 1]), ops[|ops| - 1]);
    }
  }

  // ---------- Devices that got through ----------

  /** None of the statements gives the user a key other than `key`. */
  predicate KeepsKey(ops: seq<Op>, id: nat, key: string) {
    forall k | 0 <= k < |ops| && ops[k].SetAccessKey? && ops[k].id == id :: ops[k].key == key
  }

  lemma {:induction false} KnownDeviceStays(t: Tables, ops: seq<Op>, id: nat, hwid: string)
    requires Consistent(t) && id in t.users && Registered(t.devices, id, hwid) && Spares(ops, id)
    ensures var q := Run(t, ops);
            && Consistent(q) && id in q.users && Registered(q.devices, id, hwid)
            && (KeepsKey(ops, id, t.users[id].accessKey) ==> q.users[id].accessKey == t.users[id].accessKey)
    decreases |ops|
  {
    hide Registered;
    if ops != [] {
      var n := |ops| - 1;
      var before := Run(t, ops[..n]);
      KnownDeviceStays(t, ops[..n], id, hwid);
      ApplyKeeps(before, ops[n]);
      ApplyOnRegistered(before, ops[n], id, hwid);
      ApplyOnUser(before, ops[n], id);
      hide Consistent, Apply;
    }
  }

  /** What a statement does to the row of a user. */
  lemma ApplyOnUser(t: Tables, op: Op, id: nat)
    requires id in t.users && id <= t.lastUserId
    ensures var q := Apply(t, op).0.users;
            && (id !in q <==> op.Delete? && op.id == id)
            && (id in q ==>
                  && q[id].role == t.users[id].role && q[id].deviceLimit == t.users[id].deviceLimit
                  && q[id].accessKey == if op.SetAccessKey? && op.id == id && Apply(t, op).1 then op.key
                                        else t.users[id].accessKey)
  {
    hide Registered, Count, Touch;
  }

  /**
   Once a device got through for a user it gets through again, with the key the user then has, after
   any statements that neither reset nor delete the user; with the same key if they do not change it.
   */
  lemma KnownDeviceComesBack(t: Tables, key: string, hwid: string, now: real, ops: seq<Op>, later: real)
    requires Consistent(t) && AuthenticateOn(t, key, hwid, now).1.Ok?
    requires Spares(ops, AuthenticateOn(t, key, hwid, now).1.value.0)
    ensures var id := AuthenticateOn(t, key, hwid, now).1.value.0;
            var q := Run(AuthenticateOn(t, key, hwid, now).0, ops);
            && id in q.users
            && (q.users[id].accessKey != "" ==> AuthenticateOn(q, q.users[id].accessKey, hwid, later).1.Ok?)
            && (KeepsKey(ops, id, key) ==> AuthenticateOn(q, key, hwid, later).1.Ok?)
  {
    AuthenticateSucceedsIff(t, key, hwid, now);
    var id, p := AuthenticateOn(t, key, hwid, now).1.value.0, AuthenticateOn(t, key, hwid, now).0;
    KnownDeviceStays(p, ops, id, hwid);
    AuthenticateSucceedsIff(Run(p, ops), Run(p, ops).users[id].accessKey, hwid, later);
    hide Consistent, AuthenticateOn, Registered;
  }

  // ---------- Keys of deleted users ----------

  /** The statement gives the key, which nobody has, to a user. */
  predicate GivesOut(t: Tables, op: Op, key: string) {
    || (op.Create? && op.user.accessKey == key && CreateUserOn(t, op.user).1.Ok?)
    || (op.SetAccessKey? && op.key == key && op.id in t.users)
  }

  lemma KeyReturnsIff(t: Tables, op: Op, key: string)
    requires !KeyTaken(t, key)
    ensures KeyTaken(Apply(t, op).0, key) <==> GivesOut(t, op, key)
  {
    var q := Apply(t, op).0;
    if GivesOut(t, op, key) {
      var id := if op.Create? then t.lastUserId + 1 else op.id;
      assert id in q.users && q.users[id].accessKey == key;
    }
  }

  /** Some statement of a run that began in `t` gave the key out. */
  ghost predicate GivenOut(t: Tables, ops: seq<Op>, key: string) {
    exists k :: 0 <= k < |ops| && GivesOut(Run(t, ops[..k]), ops[k], key)
  }

  lemma {:induction false} KeyStaysFree(t: Tables, ops: seq<Op>, key: string)
    requires !KeyTaken(t, key) && !GivenOut(t, ops, key)
    ensures !KeyTaken(Run(t, ops), key)
    decreases |ops|
  {
    if ops != [] {
      var n := |ops| - 1;
      forall k | 0 <= k < n
        ensures !GivesOut(Run(t, ops[..n][..k]), ops[..n][k], key)
      {
        assert ops[..n][..k] == ops[..k];
        assert !GivesOut(Run(t, ops[..k]), ops[k], key);
      }
      KeyStaysFree(t, ops[..n], key);
      KeyReturnsIff(Run(t, ops[..n]), ops[n], key);
    }
  }

  /**
   A deleted user's key is refused throughout a run exactly if no statement of the run gives that key
   to a user, whether or not the user's devices were deleted too.
   */
  lemma DeletedUserIsRefused(t: Tables, id: nat, cascades: bool, ops: seq<Op>, hwid: string, now: real)
    requires Consistent(t) && id in t.users && t.users[id].accessKey != "" && hwid != ""
    ensures var key, q := t.users[id].accessKey, DeleteUserOn(t, id, cascades);
            (forall k | 0 <= k <= |ops| :: AuthenticateOn(Run(q, ops[..k]), key, hwid, now).1 == Err(InvalidKey))
            <==> !GivenOut(q, ops, key)
  {
    var key, q := t.users[id].accessKey, DeleteUserOn(t, id, cascades);
    assert !KeyTaken(q, key);
    hide Consistent;
    if GivenOut(q, ops, key) {
      var k :| 0 <= k < |ops| && GivesOut(Run(q, ops[..k]), ops[k], key);
      if AuthenticateOn(Run(q, ops[..k]), key, hwid, now).1 == Err(InvalidKey) {
        KeyReturnsIff(Run(q, ops[..k]), ops[k], key);
        assert ops[..k + 1][..k] == ops[..k];
        assert KeyTaken(Run(q, ops[..k + 1]), key);
      }
    } else {
      forall k | 0 <= k <= |ops|
        ensures AuthenticateOn(Run(q, ops[..k]), key, hwid, now).1 == Err(InvalidKey)
      {
        forall j | 0 <= j < k
          ensures !GivesOut(Run(q, ops[..k][..j]), ops[..k][j], key)
        {
          assert ops[..k][..j] == ops[..j];
        }
        KeyStaysFree(q, ops[..k], key);
      }
    }
  }

  /** A deletion frees the key: whoever is created with it next gets through with it. */
  lemma DeletedKeyCanBeReissued(t: Tables, id: nat, cascades: bool, u: User, hwid: string, now: real)
    requires Consistent(t) && id in t.users && u.accessKey == t.users[id].accessKey != "" && hwid != ""
    ensures var (q, r) := CreateUserOn(DeleteUserOn(t, id, cascades), u);
            && (r.Ok? <==> RoleAllowed(u.role) && 1 <= u.deviceLimit <= 5)
            && (r.Ok? ==> r.value != id && AuthenticateOn(q, u.accessKey, hwid, now).1.Ok?
                          && AuthenticateOn(q, u.accessKey, hwid, now).1.value.0 == r.value)
  {
    var p := DeleteUserOn(t, id, cascades);
    assert !KeyTaken(p, u.accessKey);
    DeleteKeeps(t, id, cascades);
    if CreateUserOn(p, u).1.Ok? {
      var (q, r) := CreateUserOn(p, u);
      NewUserStartsEmpty(p, u);
      UserOfKeyIsUnique(q, u.accessKey, r.value);
      AuthenticateSucceedsIff(q, u.accessKey, hwid, now);
      hide Consistent;
    }
  }

  // ---------- Statements between the lookup and the registration ----------

  /** `Authenticate` when other statements run between its lookup and `RegisterDevice`. */
  ghost function AuthenticateAmid(t: Tables, ops: seq<Op>, key: string, hwid: string, now: real)
    : (Tables, Result<(nat, User), AuthError>)
  {
    if key == "" then (Run(t, ops), Err(EmptyKey))
    else if hwid == "" then (Run(t, ops), Err(EmptyHwid))
    else if !KeyTaken(t, key) then (Run(t, ops), Err(InvalidKey))
    else
      var id := UserOfKey(t, key);
      var user := if t.users[id].role == "admin" then t.users[id].(deviceLimit := 1) else t.users[id];
      match RegisterDeviceOn(Run(t, ops), id, hwid, now)
      case (q, Err(e)) => (q, Err(Refused(e)))
      case (q, Ok(_)) => (q, Ok((id, user)))
  }

  lemma UndisturbedIsAmidNothing(t: Tables, key: string, hwid: string, now: real)
    ensures AuthenticateAmid(t, [], key, hwid, now) == AuthenticateOn(t, key, hwid, now)
  {
  }

  /** The key that the last successful change of the user's key gave it, `key` if there was none. */
  function LastKey(t: Tables, ops: seq<Op>, id: nat, key: string): string {
    if ops == [] then key
    else
      var n := |ops| - 1;
      if ops[n].SetAccessKey? && ops[n].id == id && Apply(Run(t, ops[..n]), ops[n]).1 then ops[n].key
      else LastKey(t, ops[..n], id, key)
  }

  /** A user that is still there was there all along, with the same limit, and has the last key it was given. */
  lemma {:induction false} UserAfterRun(t: Tables, ops: seq<Op>, id: nat)
    requires Consistent(t) && id in t.users && id in Run(t, ops).users
    ensures var u := Run(t, ops).users[id];
            && u.role == t.users[id].role && u.deviceLimit == t.users[id].deviceLimit
            && u.accessKey == LastKey(t, ops, id, t.users[id].accessKey)
    decreases |ops|
  {
    if ops != [] {
      var n := |ops| - 1;
      var before := Run(t, ops[..n]);
      RunKeeps(t, ops[..n]);
      if id !in before.users {
        DeletedIdsStayAway(before, ops[n], id);
      }
      UserAfterRun(t, ops[..n], id);
      ApplyOnUser(before, ops[n], id);
    }
  }

  lemma DeletedIdsStayAway(t: Tables, op: Op, id: nat)
    requires id <= t.lastUserId && id !in t.users
    ensures id !in Apply(t, op).0.users
  {
  }

  /**
   Whatever runs in between, a success means that the user had the key at the lookup and still exists,
   with a device that was known or fitted the quota at the registration. It reports the row of the
   lookup with the limit that holds then. A refusal names the count and the limit, or that the user is
   gone. The key is stale by then exactly if the user was last given another one in between.
   */
  lemma AuthenticateAmidSucceedsIff(t: Tables, ops: seq<Op>, key: string, hwid: string, now: real)
    requires Consistent(t)
    ensures var (q, p) := (AuthenticateAmid(t, ops, key, hwid, now).0, Run(t, ops));
            var r := AuthenticateAmid(t, ops, key, hwid, now).1;
            && (r.Ok? <==>
                  && key != "" && hwid != ""
                  && exists id :: id in t.users && t.users[id].accessKey == key && id in p.users
                                  && (Registered(p.devices, id, hwid)
                                      || Count(p.devices, id) < EffectiveLimit(p.users[id])))
            && (r.Err? ==> q == p)
            && (r.Err? && r.error.Refused? ==>
                  exists id | id in t.users && t.users[id].accessKey == key ::
                    if id in p.users then
                      r.error.error == LimitExceeded(Count(p.devices, id), EffectiveLimit(p.users[id]))
                    else r.error.error == NoRows)
            && (r.Ok? ==>
                  var (id, user) := r.value;
                  && id in t.users && t.users[id].accessKey == key
                  && id in q.users && q.users == p.users && Registered(q.devices, id, hwid)
                  && user == (if t.users[id].role == "admin" then t.users[id].(deviceLimit := 1) else t.users[id])
                  && user.deviceLimit == EffectiveLimit(q.users[id])
                  && (q.users[id].accessKey != key <==> LastKey(t, ops, id, key) != key))
    ensures Consistent(AuthenticateAmid(t, ops, key, hwid, now).0)
  {
    RunKeeps(t, ops);
    if key != "" && hwid != "" && KeyTaken(t, key) {
      var id, p := UserOfKey(t, key), Run(t, ops);
      RegisterKeeps(p, id, hwid, now);
      if id in p.users {
        UserAfterRun(t, ops, id);
        if RegisterDeviceOn(p, id, hwid, now).1.Ok? {
          RegisterCounts(p, id, hwid, now);
        }
      }
      forall other | other in t.users && t.users[other].accessKey == key
        ensures other == id
      {
        UserOfKeyIsUnique(t, key, other);
      }
      hide Consistent, Registered, Count, Run;
    }
  }
}
