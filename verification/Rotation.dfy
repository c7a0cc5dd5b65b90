/**
 Key rotation of internal/store/rotate.go. A sealed value opens under the key it
 was sealed with and no other; the nonce makes every sealing different.
 */
module Rotation {
  import opened Bytes

  type Key = int

  /** A secret column: empty, sealed, or something no key opens. */
  datatype Stored = Empty | Sealed(key: Key, nonce: nat, plain: string) | Unsealed(raw: string)

  function Open(key: Key, v: Stored): Option<string> {
    match v
    case Empty => Some("")
    case Sealed(k, _, plain) => if k == key then Some(plain) else None
    case Unsealed(_) => None
  }

  function Seal(key: Key, nonce: nat, plain: string): (v: Stored)
    ensures Open(key, v) == Some(plain) && (v == Empty <==> plain == "")
    ensures forall other :: other != key && plain != "" ==> Open(other, v) == None
  {
    if plain == "" then Empty else Sealed(key, nonce, plain)
  }

  /** A key opens what was sealed under it, to what was sealed, and an empty column to nothing. */
  lemma OpensWhatItSealed(key: Key, v: Stored, plain: string)
    ensures Open(key, v) == Some(plain) <==>
              (v == Empty && plain == "") || (v.Sealed? && v.key == key && v.plain == plain)
  {
  }

  datatype Opened = Opened(plain: string, already: bool)

  /** Prefers the new key; `already` says the value must not be sealed again. */
  function Reopen(prev: Key, next: Key, v: Stored): Option<Opened> {
    if v == Empty then Some(Opened("", true))
    else match Open(next, v)
      case Some(pt) => Some(Opened(pt, true))
      case None =>
        match Open(prev, v)
        case Some(pt) => Some(Opened(pt, false))
        case None => None
  }

  datatype App = App(id: int, pem: Stored, webhookSecret: Stored)
  datatype Instance = Instance(id: int, apiToken: Stored)
  datatype Db = Db(apps: seq<App>, instances: seq<Instance>)

  // -------------------------------------------------------------- specification

  /** The plaintext somebody holding both keys can still read. */
  function Plain(prev: Key, next: Key, v: Stored): Option<string> {
    match Reopen(prev, next, v)
    case Some(o) => Some(o.plain)
    case None => None
  }

  predicate Readable(prev: Key, next: Key, v: Stored) {
    Reopen(prev, next, v).Some?
  }

  predicate AppReadable(prev: Key, next: Key, r: App) {
    Readable(prev, next, r.pem) && Readable(prev, next, r.webhookSecret)
  }

  predicate DbReadable(prev: Key, next: Key, db: Db) {
    && (forall i :: 0 <= i < |db.apps| ==> AppReadable(prev, next, db.apps[i]))
    && (forall i :: 0 <= i < |db.instances| ==> Readable(prev, next, db.instances[i].apiToken))
  }

  /** That is every column that is empty or sealed under one of the two keys. */
  lemma ReadableIsUnderEitherKey(prev: Key, next: Key, v: Stored)
    ensures Readable(prev, next, v) <==> v == Empty || (v.Sealed? && v.key in {prev, next})
    ensures Plain(prev, next, v) == if v == Empty then Some("")
                                    else if v.Sealed? && v.key in {prev, next} then Some(v.plain) else None
  {
  }

  /** A column that opens under the new key is left alone; another is sealed again under it. */
  predicate Resealed(prev: Key, next: Key, before: Stored, after: Stored) {
    if Open(next, before).Some? then after == before
    else Open(prev, before).Some? && Open(next, after) == Open(prev, before)
  }

  predicate AppResealed(prev: Key, next: Key, before: App, after: App) {
    && after.id == before.id
    && Resealed(prev, next, before.pem, after.pem)
    && Resealed(prev, next, before.webhookSecret, after.webhookSecret)
  }

  predicate InstanceResealed(prev: Key, next: Key, before: Instance, after: Instance) {
    after.id == before.id && Resealed(prev, next, before.apiToken, after.apiToken)
  }

  /** Whether a row needs an UPDATE. */
  predicate Due(next: Key, r: App) {
    Open(next, r.pem).None? || Open(next, r.webhookSecret).None?
  }

  function DueApps(next: Key, rs: seq<App>): nat {
    if rs == [] then 0 else DueApps(next, rs[..|rs| - 1]) + if Due(next, rs[|rs| - 1]) then 1 else 0
  }

  function DueInstances(next: Key, rs: seq<Instance>): nat {
    if rs == [] then 0
    else DueInstances(next, rs[..|rs| - 1]) + if Open(next, rs[|rs| - 1].apiToken).None? then 1 else 0
  }

  /** The first `k` App rows are done and the others untouched. */
  ghost predicate AppsDone(prev: Key, next: Key, before: seq<App>, after: seq<App>, k: nat) {
    && k <= |before| == |after|
    && (forall i :: 0 <= i < k ==> AppResealed(prev, next, before[i], after[i]))
    && (forall i :: k <= i < |before| ==> after[i] == before[i])
  }

  ghost predicate InstancesDone(prev: Key, next: Key, before: seq<Instance>, after: seq<Instance>, k: nat) {
    && k <= |before| == |after|
    && (forall i :: 0 <= i < k ==> InstanceResealed(prev, next, before[i], after[i]))
    && (forall i :: k <= i < |before| ==> after[i] == before[i])
  }

  /** How far a rotation got: `a` App rows and `c` instance rows, `n` of them rewritten. */
  ghost predicate Progress(prev: Key, next: Key, before: Db, after: Db, a: nat, c: nat, n: nat) {
    && AppsDone(prev, next, before.apps, after.apps, a)
    && InstancesDone(prev, next, before.instances, after.instances, c)
    && (c > 0 ==> a == |before.apps|)
    && n == DueApps(next, before.apps[..a]) + DueInstances(next, before.instances[..c])
  }

  /** A rotation does every row, or stops at the first that neither key opens. */
  ghost predicate Outcome(prev: Key, next: Key, before: Db, after: Db, n: nat, ok: bool) {
    if ok then Progress(prev, next, before, after, |before.apps|, |before.instances|, n)
    else
      || (exists a: nat :: a < |before.apps| && !AppReadable(prev, next, before.apps[a])
                           && Progress(prev, next, before, after, a, 0, n))
      || (exists c: nat :: c < |before.instances| && !Readable(prev, next, before.instances[c].apiToken)
                           && Progress(prev, next, before, after, |before.apps|, c, n))
  }

  /** Nothing has been lost: every column still reads as it did. */
  ghost predicate Recoverable(prev: Key, next: Key, first: Db, db: Db) {
    && |db.apps| == |first.apps| && |db.instances| == |first.instances|
    && (forall i :: 0 <= i < |db.apps| ==>
          && db.apps[i].id == first.apps[i].id
          && Plain(prev, next, db.apps[i].pem) == Plain(prev, next, first.apps[i].pem)
          && Plain(prev, next, db.apps[i].webhookSecret) == Plain(prev, next, first.apps[i].webhookSecret))
    && (forall i :: 0 <= i < |db.instances| ==>
          && db.instances[i].id == first.instances[i].id
          && Plain(prev, next, db.instances[i].apiToken) == Plain(prev, next, first.instances[i].apiToken))
  }

  /** Every column opens under the new key alone, to what it first held. */
  ghost predicate Rotated(prev: Key, next: Key, first: Db, db: Db) {
    && Recoverable(prev, next, first, db)
    && (forall i :: 0 <= i < |db.apps| ==>
          && Open(next, db.apps[i].pem) == Plain(prev, next, first.apps[i].pem)
          && Open(next, db.apps[i].webhookSecret) == Plain(prev, next, first.apps[i].webhookSecret))
    && (forall i :: 0 <= i < |db.instances| ==>
          Open(next, db.instances[i].apiToken) == Plain(prev, next, first.instances[i].apiToken))
  }

  /** One column: sealed again or left alone, it reads as before, and under the new key alone. */
  lemma ResealedReadsTheSame(prev: Key, next: Key, before: Stored, after: Stored)
    requires Resealed(prev, next, before, after)
    ensures Plain(prev, next, after) == Plain(prev, next, before) == Open(next, after)
  {
  }

  lemma ProgressIsRecoverable(prev: Key, next: Key, before: Db, after: Db, a: nat, c: nat, n: nat)
    requires Progress(prev, next, before, after, a, c, n)
    ensures Recoverable(prev, next, before, after)
  {
    forall i | 0 <= i < a
      ensures Plain(prev, next, after.apps[i].pem) == Plain(prev, next, before.apps[i].pem)
      ensures Plain(prev, next, after.apps[i].webhookSecret) == Plain(prev, next, before.apps[i].webhookSecret)
    {
      assert AppResealed(prev, next, before.apps[i], after.apps[i]);
      ResealedReadsTheSame(prev, next, before.apps[i].pem, after.apps[i].pem);
      ResealedReadsTheSame(prev, next, before.apps[i].webhookSecret, after.apps[i].webhookSecret);
    }
    forall i | 0 <= i < c
      ensures Plain(prev, next, after.instances[i].apiToken) == Plain(prev, next, before.instances[i].apiToken)
    {
      assert InstanceResealed(prev, next, before.instances[i], after.instances[i]);
      ResealedReadsTheSame(prev, next, before.instances[i].apiToken, after.instances[i].apiToken);
    }
  }

  lemma RecoverableTrans(prev: Key, next: Key, a: Db, b: Db, c: Db)
    requires Recoverable(prev, next, a, b) && Recoverable(prev, next, b, c)
    ensures Recoverable(prev, next, a, c)
  {
  }

  lemma StaysReadable(prev: Key, next: Key, first: Db, db: Db)
    requires DbReadable(prev, next, first) && Recoverable(prev, next, first, db)
    ensures DbReadable(prev, next, db)
  {
    forall i | 0 <= i < |db.apps| ensures AppReadable(prev, next, db.apps[i]) {
      assert AppReadable(prev, next, first.apps[i]);
    }
    forall i | 0 <= i < |db.instances| ensures Readable(prev, next, db.instances[i].apiToken) {
      assert Readable(prev, next, first.instances[i].apiToken);
    }
  }

  /** One more App row done: the UPDATE, when the row was due one. */
  lemma AppAdvances(prev: Key, next: Key, first: Db, db: Db, i: nat, n: nat, r: App)
    requires Progress(prev, next, first, db, i, 0, n) && i < |first.apps|
    requires AppResealed(prev, next, first.apps[i], r)
    ensures
      var done := db.(apps := db.apps[i := r]);
      && Progress(prev, next, first, done, i + 1, 0, n + if Due(next, first.apps[i]) then 1 else 0)
      && Recoverable(prev, next, first, done)
      && (!Due(next, first.apps[i]) ==> done == db)
  {
    assert first.apps[..i + 1][..i] == first.apps[..i];
    var done := db.(apps := db.apps[i := r]);
    var m := n + if Due(next, first.apps[i]) then 1 else 0;
    ProgressIsRecoverable(prev, next, first, done, i + 1, 0, m);
    if !Due(next, first.apps[i]) { assert done.apps == db.apps; }
  }

  /** One more instance row done. */
  lemma InstanceAdvances(prev: Key, next: Key, first: Db, db: Db, i: nat, n: nat, r: Instance)
    requires Progress(prev, next, first, db, |first.apps|, i, n) && i < |first.instances|
    requires InstanceResealed(prev, next, first.instances[i], r)
    ensures
      var due := Open(next, first.instances[i].apiToken).None?;
      var done := db.(instances := db.instances[i := r]);
      && Progress(prev, next, first, done, |first.apps|, i + 1, n + if due then 1 else 0)
      && Recoverable(prev, next, first, done)
      && (!due ==> done == db)
  {
    var due := Open(next, first.instances[i].apiToken).None?;
    assert first.instances[..i + 1][..i] == first.instances[..i];
    var done := db.(instances := db.instances[i := r]);
    var m := n + if due then 1 else 0;
    ProgressIsRecoverable(prev, next, first, done, |first.apps|, i + 1, m);
    if !due { assert done.instances == db.instances; }
  }

  /** How many entries of one list differ from those of another. */
  function Changed<T(==)>(before: seq<T>, after: seq<T>): nat
    requires |before| == |after|
  {
    if before == [] then 0
    else
      var n := |before| - 1;
      Changed(before[..n], after[..n]) + if before[n] == after[n] then 0 else 1
  }

  lemma {:induction false} DueAppsChange(prev: Key, next: Key, before: seq<App>, after: seq<App>)
    requires |before| == |after|
    requires forall i :: 0 <= i < |before| ==> AppResealed(prev, next, before[i], after[i])
    ensures Changed(before, after) == DueApps(next, before)
  {
    if before != [] {
      var n := |before| - 1;
      DueAppsChange(prev, next, before[..n], after[..n]);
      assert AppResealed(prev, next, before[n], after[n]);
    }
  }

  lemma {:induction false} DueInstancesChange(prev: Key, next: Key, before: seq<Instance>, after: seq<Instance>)
    requires |before| == |after|
    requires forall i :: 0 <= i < |before| ==> InstanceResealed(prev, next, before[i], after[i])
    ensures Changed(before, after) == DueInstances(next, before)
  {
    if before != [] {
      var n := |before| - 1;
      DueInstancesChange(prev, next, before[..n], after[..n]);
      assert InstanceResealed(prev, next, before[n], after[n]);
    }
  }

  lemma {:induction false} SameIsUnchanged<T>(before: seq<T>, after: seq<T>, k: nat)
    requires k <= |before| == |after| && forall i :: k <= i < |before| ==> after[i] == before[i]
    ensures Changed(before, after) == Changed(before[..k], after[..k])
  {
    if k == |before| {
      assert before[..k] == before && after[..k] == after;
    } else {
      var n := |before| - 1;
      SameIsUnchanged(before[..n], after[..n], k);
      assert before[..n][..k] == before[..k] && after[..n][..k] == after[..k];
    }
  }

  lemma ProgressIsRowsChanged(prev: Key, next: Key, before: Db, after: Db, a: nat, c: nat, n: nat)
    requires Progress(prev, next, before, after, a, c, n)
    ensures |after.apps| == |before.apps| && |after.instances| == |before.instances|
    ensures n == Changed(before.apps, after.apps) + Changed(before.instances, after.instances)
  {
    SameIsUnchanged(before.apps, after.apps, a);
    SameIsUnchanged(before.instances, after.instances, c);
    DueAppsChange(prev, next, before.apps[..a], after.apps[..a]);
    DueInstancesChange(prev, next, before.instances[..c], after.instances[..c]);
  }

  /** The number reported is the number of rows whose stored strings changed. */
  lemma CountIsRowsChanged(prev: Key, next: Key, before: Db, after: Db, n: nat, ok: bool)
    requires Outcome(prev, next, before, after, n, ok)
    ensures |after.apps| == |before.apps| && |after.instances| == |before.instances|
    ensures n == Changed(before.apps, after.apps) + Changed(before.instances, after.instances)
  {
    if ok {
      ProgressIsRowsChanged(prev, next, before, after, |before.apps|, |before.instances|, n);
    } else if a: nat :| a < |before.apps| && !AppReadable(prev, next, before.apps[a])
                        && Progress(prev, next, before, after, a, 0, n) {
      ProgressIsRowsChanged(prev, next, before, after, a, 0, n);
    } else {
      var c: nat :| c < |before.instances| && Progress(prev, next, before, after, |before.apps|, c, n);
      ProgressIsRowsChanged(prev, next, before, after, |before.apps|, c, n);
    }
  }

  /** A rewritten column is sealed under the new key alone; what it opened to before, it opens to now. */
  lemma RewrittenOpensUnderNew(prev: Key, next: Key, before: Stored, after: Stored)
    requires Resealed(prev, next, before, after) && after != before
    ensures Open(next, before) == None && Open(prev, before).Some? && Open(next, after) == Open(prev, before)
    ensures prev != next ==> Open(prev, after) == None || after == Empty
  {
  }

  /** An interrupted rotation, started again, finishes: no error, and everything rotated. */
  lemma RerunFinishes(prev: Key, next: Key, first: Db, stopped: Db, after: Db, n: nat, ok: bool)
    requires DbReadable(prev, next, first) && Recoverable(prev, next, first, stopped)
    requires Outcome(prev, next, stopped, after, n, ok)
    ensures ok && Rotated(prev, next, first, after)
  {
    StaysReadable(prev, next, first, stopped);
    ProgressIsRecoverable(prev, next, stopped, after, |stopped.apps|, |stopped.instances|, n);
    RecoverableTrans(prev, next, first, stopped, after);
    forall i | 0 <= i < |after.apps|
      ensures Open(next, after.apps[i].pem) == Plain(prev, next, first.apps[i].pem)
      ensures Open(next, after.apps[i].webhookSecret) == Plain(prev, next, first.apps[i].webhookSecret)
    {
      assert AppResealed(prev, next, stopped.apps[i], after.apps[i]);
    }
    forall i | 0 <= i < |after.instances|
      ensures Open(next, after.instances[i].apiToken) == Plain(prev, next, first.instances[i].apiToken)
    {
      assert InstanceResealed(prev, next, stopped.instances[i], after.instances[i]);
    }
  }

  /** A rotation succeeds exactly on a database whose every column opens under some key. */
  lemma SucceedsIfReadable(prev: Key, next: Key, before: Db, after: Db, n: nat, ok: bool)
    requires Outcome(prev, next, before, after, n, ok)
    ensures ok <==> DbReadable(prev, next, before)
  {
    if ok {
      forall i | 0 <= i < |before.apps| ensures AppReadable(prev, next, before.apps[i]) {
        assert AppResealed(prev, next, before.apps[i], after.apps[i]);
      }
      forall i | 0 <= i < |before.instances| ensures Readable(prev, next, before.instances[i].apiToken) {
        assert InstanceResealed(prev, next, before.instances[i], after.instances[i]);
      }
    }
  }

  lemma {:induction false} NothingDue(next: Key, apps: seq<App>, instances: seq<Instance>)
    requires forall i :: 0 <= i < |apps| ==> !Due(next, apps[i])
    requires forall i :: 0 <= i < |instances| ==> Open(next, instances[i].apiToken).Some?
    ensures DueApps(next, apps) == 0 && DueInstances(next, instances) == 0
    decreases |apps| + |instances|
  {
    if apps != [] {
      NothingDue(next, apps[..|apps| - 1], instances);
    } else if instances != [] {
      NothingDue(next, [], instances[..|instances| - 1]);
    }
  }

  /** A further rotation reports 0 and changes no stored string. */
  lemma FurtherRunIsIdle(prev: Key, next: Key, first: Db, db: Db, after: Db, n: nat, ok: bool)
    requires DbReadable(prev, next, first) && Rotated(prev, next, first, db)
    requires Outcome(prev, next, db, after, n, ok)
    ensures ok && n == 0 && after == db
  {
    RerunFinishes(prev, next, first, db, after, n, ok);
    forall i | 0 <= i < |db.apps| ensures !Due(next, db.apps[i]) && after.apps[i] == db.apps[i] {
      assert AppReadable(prev, next, first.apps[i]);
      assert AppResealed(prev, next, db.apps[i], after.apps[i]);
    }
    forall i | 0 <= i < |db.instances|
      ensures Open(next, db.instances[i].apiToken).Some? && after.instances[i] == db.instances[i]
    {
      assert Readable(prev, next, first.instances[i].apiToken);
      assert InstanceResealed(prev, next, db.instances[i], after.instances[i]);
    }
    assert db.apps[..|db.apps|] == db.apps && db.instances[..|db.instances|] == db.instances;
    NothingDue(next, db.apps, db.instances);
    assert after.apps == db.apps && after.instances == db.instances;
  }

  // --------------------------------------------------------- the imperative form

  class SecretStore {
    /** The key the store is opened with. */
    const key: Key
    var apps: seq<App>
    var instances: seq<Instance>
    /** Nonces drawn so far. */
    var draws: nat
    /** Every state the database has been left in by one committed UPDATE. */
    ghost var committed: seq<Db>

    constructor (key: Key, db: Db)
      ensures this.key == key && Value() == db && committed == []
    {
      this.key := key;
      apps, instances, draws, committed := db.apps, db.instances, 0, [];
    }

    ghost function Value(): Db
      reads this
    {
      Db(apps, instances)
    }

    /** The states left behind since `mark`: one per rewritten row, none of them a loss. */
    ghost predicate Safe(prev: Key, first: Db, mark: seq<Db>, n: nat)
      reads this
    {
      && mark <= committed && |committed| == |mark| + n
      && forall i :: |mark| <= i < |committed| ==> Recoverable(prev, key, first, committed[i])
    }

    method SealNext(plain: string) returns (v: Stored)
      modifies this`draws
      ensures Open(key, v) == Some(plain)
    {
      v := Seal(key, draws, plain);
      draws := draws + 1;
    }

    method RotateSecrets(oldKey: Option<Key>) returns (n: nat, ok: bool)
      modifies this
      ensures oldKey.None? ==> !ok && n == 0 && Value() == old(Value())
      ensures oldKey.Some? ==> Outcome(oldKey.value, key, old(Value()), Value(), n, ok)
      ensures oldKey.Some? ==> Safe(oldKey.value, old(Value()), old(committed), n)
    {
      if oldKey.None? {
        return 0, false;
      }
      n, ok := RotateApps(oldKey.value, Value(), committed);
      if !ok {
        return;
      }
      n, ok := RotateInstances(oldKey.value, old(Value()), old(committed), n);
    }

    method RotateApps(prev: Key, ghost first: Db, ghost mark: seq<Db>) returns (n: nat, ok: bool)
      requires Value() == first && committed == mark
      modifies this
      ensures ok ==> Progress(prev, key, first, Value(), |first.apps|, 0, n)
      ensures !ok ==> Outcome(prev, key, first, Value(), n, ok)
      ensures Safe(prev, first, mark, n)
    {
      n := 0;
      var rows := apps;
      for i := 0 to |rows|
        invariant Progress(prev, key, first, Value(), i, 0, n)
        invariant rows == first.apps && Safe(prev, first, mark, n)
      {
        var r := rows[i];
        var pem := Reopen(prev, key, r.pem);
        if pem.None? {
          return n, false;
        }
        var wh := Reopen(prev, key, r.webhookSecret);
        if wh.None? {
          return n, false;
        }
        if pem.value.already && wh.value.already {
          AppAdvances(prev, key, first, Value(), i, n, r);
          continue;
        }
        var newPem, newWh := r.pem, r.webhookSecret;
        if !pem.value.already {
          newPem := SealNext(pem.value.plain);
        }
        if !wh.value.already {
          newWh := SealNext(wh.value.plain);
        }
        AppAdvances(prev, key, first, Value(), i, n, App(r.id, newPem, newWh));
        apps := apps[i := App(r.id, newPem, newWh)];
        n := n + 1;
        committed := committed + [Value()];
      }
      ok := true;
    }

    method RotateInstances(prev: Key, ghost first: Db, ghost mark: seq<Db>, m: nat) returns (n: nat, ok: bool)
      requires Progress(prev, key, first, Value(), |first.apps|, 0, m)
      requires Safe(prev, first, mark, m)
      modifies this
      ensures Outcome(prev, key, first, Value(), n, ok)
      ensures Safe(prev, first, mark, n)
    {
      n := m;
      var rows := instances;
      for i := 0 to |rows|
        invariant Progress(prev, key, first, Value(), |first.apps|, i, n)
        invariant rows == first.instances && Safe(prev, first, mark, n)
      {
        var r := rows[i];
        var tok := Reopen(prev, key, r.apiToken);
        if tok.None? {
          return n, false;
        }
        if tok.value.already {
          InstanceAdvances(prev, key, first, Value(), i, n, r);
          continue;
        }
        var next := SealNext(tok.value.plain);
        InstanceAdvances(prev, key, first, Value(), i, n, Instance(r.id, next));
        instances := instances[i := Instance(r.id, next)];
        n := n + 1;
        committed := committed + [Value()];
      }
      ok := true;
    }
  }
}
