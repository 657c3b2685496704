/** The rate limiter as the source has it: records updated in place. Each method is
    proved to move the limiter's abstract value exactly as LimiterSpec says. */
module RateLimiter {
  import opened Sets
  import opened TokenBucket
  import Spec = LimiterSpec

  class UserLimiter {
    var general: Bucket
    var commands: map<string, Bucket>
    var lastSeen: real
    /** Whose record this is; keeps the records of a limiter apart. */
    ghost const uid: int

    constructor (ghost uid: int, general: Bucket, now: real)
      ensures this.uid == uid && Value() == Spec.User(general, map[], now)
    {
      this.uid, this.general := uid, general;
      commands, lastSeen := map[], now;
    }

    function Value(): Spec.User
      reads this
    {
      Spec.User(general, commands, lastSeen)
    }

    /** Charges `global`, then the general bucket. */
    method ChargeGeneral(global: Bucket, now: real) returns (ok: bool, paid: Bucket)
      modifies `general
      ensures paid == Take(global, now) && ok == Spec.Admits(global, old(general), now)
      ensures Value() == old(Value()).(general := Spec.ChargeOwn(global, old(general), now))
    {
      ok := CanTake(global, now);
      paid := Take(global, now);
      if ok {
        ok := CanTake(general, now);
        general := Take(general, now);
      }
    }

    /** Finds or creates the command's bucket, charges `global`, then that bucket. */
    method ChargeCommand(command: string, unused: Bucket, global: Bucket, now: real) returns (ok: bool, paid: Bucket)
      modifies `commands
      ensures paid == Take(global, now)
      ensures var own := if command in old(commands) then old(commands)[command] else unused;
        && ok == Spec.Admits(global, own, now)
        && Value() == old(Value()).(commands := old(commands)[command := Spec.ChargeOwn(global, own, now)])
    {
      hide CanTake;
      if command !in commands {
        commands := commands[command := unused];
      }
      var limiter := commands[command];
      ok := CanTake(global, now);
      paid := Take(global, now);
      if ok {
        ok := CanTake(limiter, now);
        commands := commands[command := Take(limiter, now)];
      }
    }
  }

  class RateLimiter {
    const globalRate: real
    const globalBurst: nat
    var global: Bucket
    var users: map<int, UserLimiter>
    var commandRate: map<string, real>
    var commandBurst: map<string, nat>
    const defaultRate: real
    const defaultBurst: nat
    var denied: nat
    /** The value of the limiter with all its records. */
    ghost var state: Spec.State

    constructor (globalRate: real, globalBurst: nat)
      ensures Valid()
      ensures Settings() == Spec.Config(globalRate, globalBurst, 30.0 / 60.0, 5, map[], map[])
      ensures state == Spec.Init(Settings())
    {
      this.globalRate, this.globalBurst := globalRate, globalBurst;
      global := Fresh(globalRate, globalBurst);
      users, commandRate, commandBurst := map[], map[], map[];
      defaultRate, defaultBurst, denied := 30.0 / 60.0, 5, 0;
      state := Spec.State(Fresh(globalRate, globalBurst), map[], 0);
    }

    ghost predicate Valid()
      reads this, users.Values
    {
      && state.global == global && state.denied == denied
      && state.users.Keys == users.Keys
      && forall u <- users :: users[u].uid == u && users[u].Value() == state.users[u]
    }

    function Settings(): Spec.Config
      reads this
    {
      Spec.Config(globalRate, globalBurst, defaultRate, defaultBurst, commandRate, commandBurst)
    }

    method NewCommand(command: string) returns (limiter: Bucket)
      ensures limiter == Spec.NewCommand(Settings(), command)
    {
      var r, b := defaultRate, defaultBurst;
      if command in commandRate && command in commandBurst {
        r, b := commandRate[command], commandBurst[command];
      }
      limiter := Fresh(r, b);
    }

    method SetCommandRate(command: string, r: real, burst: nat)
      requires Valid()
      modifies `commandRate, `commandBurst
      ensures Valid() && state == old(state)
      ensures Settings() == old(Settings()).(
                commandRate := old(commandRate)[command := r], commandBurst := old(commandBurst)[command := burst])
    {
      commandRate := commandRate[command := r];
      commandBurst := commandBurst[command := burst];
    }

    /** The record of `uid`, created if missing, marked as seen. */
    method GetOrCreateUser(uid: int, now: real) returns (ul: UserLimiter)
      requires Valid()
      modifies `users, `state, users.Values`lastSeen
      ensures Valid() && uid in users && users[uid] == ul
      ensures if uid in old(users) then users == old(users) else users == old(users)[uid := ul] && fresh(ul)
      ensures state == old(state).(users := old(state).users[uid := Spec.Touch(Settings(), old(state), uid, now)])
    {
      if uid in users {
        ul := users[uid];
      } else {
        ul := new UserLimiter(uid, Fresh(defaultRate, defaultBurst), now);
        users := users[uid := ul];
      }
      ul.lastSeen := now;
      state := state.(users := state.users[uid := ul.Value()]);
    }

    /** Ends a call on `uid`: the paid global bucket, the denial count, the new value. */
    method Settle(uid: int, ok: bool, paid: Bucket)
      requires uid in users && state.users.Keys == users.Keys && state.denied == denied
      requires forall u <- users :: users[u].uid == u && (u != uid ==> users[u].Value() == state.users[u])
      modifies `global, `denied, `state
      ensures Valid()
      ensures state == Spec.State(paid, old(state).users[uid := users[uid].Value()],
                                  old(state).denied + if ok then 0 else 1)
    {
      global := paid;
      if !ok {
        denied := denied + 1;
      }
      state := Spec.State(global, state.users[uid := users[uid].Value()], denied);
    }

    method Allow(uid: int, now: real) returns (ok: bool)
      requires Valid()
      modifies this, users.Values
      ensures Valid() && Settings() == old(Settings())
      ensures ok == Spec.Decision(Settings(), old(state), Spec.Allow(uid, now))
      ensures state == Spec.Next(Settings(), old(state), Spec.Allow(uid, now))
    {
      hide Available, Earned, CanTake;
      var ul := GetOrCreateUser(uid, now);
      var paid;
      ok, paid := ul.ChargeGeneral(global, now);
      Settle(uid, ok, paid);
      UpdateTwice(old(state).users, uid, Spec.Touch(Settings(), old(state), uid, now), ul.Value());
    }

    method AllowCommand(uid: int, command: string, now: real) returns (ok: bool)
      requires Valid()
      modifies this, users.Values
      ensures Valid() && Settings() == old(Settings())
      ensures ok == Spec.Decision(Settings(), old(state), Spec.AllowCommand(uid, command, now))
      ensures state == Spec.Next(Settings(), old(state), Spec.AllowCommand(uid, command, now))
    {
      hide Take, CanTake, Spec.Decision, Spec.Next, Spec.NewCommand, Spec.Touch, Spec.ChargeOwn;
      var ul := GetOrCreateUser(uid, now);
      var unused := NewCommand(command);
      var paid;
      ok, paid := ul.ChargeCommand(command, unused, global, now);
      Settle(uid, ok, paid);
      Spec.AllowCommandEffect(Settings(), old(state), uid, command, now);
    }

    /** Brings `state` up to date after records were dropped. */
    ghost method SettleSweep(maxIdle: real, now: real)
      requires state.global == global && state.denied == denied && Linked(users, state.users)
      requires forall u <- state.users :: u in users <==> u in Spec.Sweep(state.users, maxIdle, now)
      modifies `state
      ensures Valid() && state == old(state).(users := Spec.Sweep(old(state).users, maxIdle, now))
    {
      var swept := Spec.Sweep(state.users, maxIdle, now);
      forall u | u in users ensures u in swept { assert u in state.users; }
      forall u | u in swept ensures u in users { assert u in state.users; }
      assert swept.Keys == users.Keys;
      state := state.(users := swept);
    }

    method CleanupStale(maxIdle: real, now: real) returns (cleaned: nat)
      requires Valid()
      modifies `users, `state
      ensures Valid() && Settings() == old(Settings())
      ensures state == Spec.Next(Settings(), old(state), Spec.Cleanup(maxIdle, now))
      ensures cleaned == |old(users)| - |users|
    {
      hide Spec.Next, Spec.Sweep, Linked;
      LinkedAll(users, state.users);
      cleaned := DropStale(maxIdle, now);
      SweepKeeps(state.users, maxIdle, now);
      SettleSweep(maxIdle, now);
      SweepIsCleanup(Settings(), old(state), maxIdle, now);
    }

    /** The loop of CleanupStale: drops the records idle for longer than `maxIdle`, and only those. */
    method DropStale(maxIdle: real, now: real) returns (cleaned: nat)
      requires Linked(users, state.users) && users.Keys == state.users.Keys
      modifies `users
      ensures Linked(users, state.users) && cleaned == |old(users)| - |users|
      ensures forall u <- state.users :: u in users <==> !Spec.Idle(state.users[u], maxIdle, now)
    {
      hide Linked;
      var todo := users.Keys;
      cleaned := 0;
      while todo != {}
        invariant Linked(users, state.users)
        invariant todo <= users.Keys <= state.users.Keys
        invariant forall u <- state.users :: u in users <==> u in todo || !Spec.Idle(state.users[u], maxIdle, now)
        invariant cleaned == |old(users)| - |users|
        decreases todo
      {
        ghost var _ := Member(todo);
        var uid :| uid in todo;
        var gone := DropIfStale(uid, maxIdle, now);
        if gone {
          cleaned := cleaned + 1;
        }
        todo := todo - {uid};
      }
    }

    /** The body of the range: one record. */
    method DropIfStale(uid: int, maxIdle: real, now: real) returns (gone: bool)
      requires Linked(users, state.users) && uid in users
      modifies `users
      ensures Linked(users, state.users)
      ensures uid in state.users && gone == Spec.Idle(state.users[uid], maxIdle, now)
      ensures if gone then users.Keys == old(users).Keys - {uid} && |users| == |old(users)| - 1 else users == old(users)
    {
      hide Linked;
      LinkedAt(users, state.users, uid);
      gone := now - users[uid].lastSeen > maxIdle;
      if gone {
        RemovedOne(users, uid);
        LinkedRest(users, state.users, uid);
        users := users - {uid};
      }
    }
  }

  /** Each record is kept under its own user and has the value the table of values gives it. */
  ghost predicate Linked(users: map<int, UserLimiter>, values: map<int, Spec.User>)
    reads users.Values
  {
    forall u <- users :: u in values && users[u].uid == u && users[u].Value() == values[u]
  }

  lemma LinkedAll(users: map<int, UserLimiter>, values: map<int, Spec.User>)
    requires forall u <- users :: u in values && users[u].uid == u && users[u].Value() == values[u]
    ensures Linked(users, values)
  {}

  lemma LinkedAt(users: map<int, UserLimiter>, values: map<int, Spec.User>, uid: int)
    requires Linked(users, values) && uid in users
    ensures uid in values && users[uid].lastSeen == values[uid].lastSeen
  {}

  lemma LinkedRest(users: map<int, UserLimiter>, values: map<int, Spec.User>, uid: int)
    requires Linked(users, values)
    ensures Linked(users - {uid}, values)
  {}

  lemma SweepKeeps(users: map<int, Spec.User>, maxIdle: real, now: real)
    ensures forall u <- users :: u in Spec.Sweep(users, maxIdle, now) <==> !Spec.Idle(users[u], maxIdle, now)
  {}

  lemma SweepIsCleanup(cfg: Spec.Config, s: Spec.State, maxIdle: real, now: real)
    ensures Spec.Next(cfg, s, Spec.Cleanup(maxIdle, now)) == s.(users := Spec.Sweep(s.users, maxIdle, now))
  {}

  lemma UpdateTwice<K, V>(m: map<K, V>, k: K, v: V, w: V)
    ensures m[k := v][k := w] == m[k := w]
  {}

  lemma RemovedOne<V>(m: map<int, V>, k: int)
    requires k in m
    ensures |m - {k}| == |m| - 1 && (m - {k}).Keys == m.Keys - {k}
  {
    assert (m - {k}).Keys == m.Keys - {k};
  }
}
