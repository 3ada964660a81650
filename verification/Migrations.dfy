/** `server/src/Database.cpp`, `init`: the migration loop, and what it leaves behind when it is
    cut short. */
module Migrations {
  import opened Prelude

  /** What goes wrong while one version is applied. A process that dies inside the transaction
      leaves what a rollback leaves; one that dies around the commit leaves either outcome. */
  datatype Fault =
    | NoFault | OpenFails | BeginFails | ExecFails | RecordFails | CommitFails | CommitUnacknowledged

  /** What survives: the scripts whose effect the schema carries, in order, and the rows of
      schema_migrations. */
  datatype Durable = Durable(schema: seq<string>, versions: seq<nat>)

  const FRESH := Durable([], [])

  /** One call of `init`: the script files as listed then, and the faults it meets. */
  datatype Attempt = Attempt(files: seq<string>, notOpen: bool, tableFault: bool, maxFault: bool, fault: nat -> Fault)

  /** SELECT MAX(version), NULL read as 0. */
  function Max(versions: seq<nat>): nat {
    if versions == [] then 0
    else
      var rest, last := Max(versions[..|versions| - 1]), versions[|versions| - 1];
      if rest < last then last else rest
  }

  function Counting(from: nat, to: nat): (r: seq<nat>)
    requires from <= to
    ensures |r| == to - from
  {
    if from == to then [] else Counting(from, to - 1) + [to]
  }

  /** How far one attempt gets, starting after version `k`. */
  function Reached(k: nat, files: seq<string>, fault: nat -> Fault): (m: nat)
    ensures k <= m && (k <= |files| ==> m <= |files|)
    decreases |files| - k
  {
    if |files| <= k then k
    else match fault(k + 1)
      case NoFault => Reached(k + 1, files, fault)
      case CommitUnacknowledged => k + 1
      case _ => k
  }

  /** No fault stands in the way of any version still to be applied. */
  function Completes(k: nat, files: seq<string>, fault: nat -> Fault): bool
    decreases |files| - k
  {
    |files| <= k || (fault(k + 1) == NoFault && Completes(k + 1, files, fault))
  }

  function Outcome(d: Durable, a: Attempt): Durable {
    var k := Max(d.versions);
    if a.notOpen || a.tableFault || a.maxFault || |a.files| <= k then d
    else
      Extended(d, a.files, k, Reached(k, a.files, a.fault))
  }

  /** The files from the `k`-th on applied and recorded, up to version `m`. */
  function Extended(d: Durable, files: seq<string>, k: nat, m: nat): Durable
    requires k <= m <= |files|
  {
    Durable(d.schema + files[k..m], d.versions + Counting(k, m))
  }

  function Succeeds(d: Durable, a: Attempt): bool {
    !a.notOpen && !a.tableFault && !a.maxFault && Completes(Max(d.versions), a.files, a.fault)
  }

  /** The database as `init` drives it: the durable contents and, while a transaction is open,
      the contents it would commit. */
  class MigrationStore {
    var durable: Durable
    var working: Durable

    constructor ()
      ensures durable == FRESH
    {
      durable, working := FRESH, FRESH;
    }

    method Transaction(fault: bool) returns (ok: bool)
      modifies this`working
      ensures ok == !fault
      ensures working == if ok then durable else old(working)
    {
      if !fault {
        working := durable;
      }
      return !fault;
    }

    method Exec(sql: string, fault: bool) returns (ok: bool)
      modifies this`working
      ensures ok == !fault
      ensures working == if ok then old(working).(schema := old(working).schema + [sql]) else old(working)
    {
      if !fault {
        working := working.(schema := working.schema + [sql]);
      }
      return !fault;
    }

    /** The version column is the primary key: recording a version twice fails. */
    method Record(version: nat, fault: bool) returns (ok: bool)
      modifies this`working
      ensures ok == (!fault && version !in old(working).versions)
      ensures working == if ok then old(working).(versions := old(working).versions + [version]) else old(working)
    {
      ok := !fault && version !in working.versions;
      if ok {
        working := working.(versions := working.versions + [version]);
      }
    }

    /** An unacknowledged commit takes effect although the caller is told that it failed. */
    method Commit(fault: Fault) returns (ok: bool)
      modifies this`durable
      ensures ok == (fault !in {CommitFails, CommitUnacknowledged})
      ensures durable == if fault == CommitFails then old(durable) else working
    {
      if fault != CommitFails {
        durable := working;
      }
      ok := fault != CommitFails && fault != CommitUnacknowledged;
    }

    /** The body of the loop: open the file, then execute and record inside one transaction. */
    method ApplyOne(sql: string, version: nat, fault: Fault) returns (ok: bool)
      requires version !in durable.versions
      modifies this
      ensures ok == (fault == NoFault)
      ensures durable == if fault in {NoFault, CommitUnacknowledged}
        then Durable(old(durable).schema + [sql], old(durable).versions + [version]) else old(durable)
    {
      if fault == OpenFails {
        return false;
      }
      var begun := Transaction(fault == BeginFails);
      if !begun {
        return false;
      }
      var executed := Exec(sql, fault == ExecFails);
      if !executed {
        return false;
      }
      var recorded := Record(version, fault == RecordFails);
      if !recorded {
        return false;
      }
      ok := Commit(fault);
    }

    method Init(a: Attempt) returns (ok: bool)
      modifies this
      ensures durable == Outcome(old(durable), a)
      ensures ok == Succeeds(old(durable), a)
    {
      if a.notOpen || a.tableFault || a.maxFault {
        return false;
      }
      ok := ApplyPending(a, Max(durable.versions));
    }

    /** The loop over the files after the current version. */
    method ApplyPending(a: Attempt, version: nat) returns (ok: bool)
      requires !a.notOpen && !a.tableFault && !a.maxFault && version == Max(durable.versions)
      modifies this
      ensures durable == Outcome(old(durable), a)
      ensures ok == Succeeds(old(durable), a)
    {
      hide Outcome, Succeeds, Max;
      var currentVersion, totalMigrations := version, |a.files|;

      var i := currentVersion;
      while i < totalMigrations
        invariant currentVersion == i == Max(durable.versions)
        invariant Outcome(durable, a) == Outcome(old(durable), a)
        invariant Succeeds(durable, a) == Succeeds(old(durable), a)
      {
        var version := i + 1;
        MaxOfNext(durable.versions, version);
        OutcomeOfNext(durable, a);
        var applied := ApplyOne(a.files[i], version, a.fault(version));
        if !applied {
          return false;
        }
        currentVersion := version;
        i := i + 1;
      }
      NothingPending(durable, a);
      return true;
    }
  }

  lemma NothingPending(d: Durable, a: Attempt)
    requires !a.notOpen && !a.tableFault && !a.maxFault && |a.files| <= Max(d.versions)
    ensures Outcome(d, a) == d && Succeeds(d, a)
  {
  }

  /** The outcome of an attempt, one file at a time. */
  lemma OutcomeOfNext(d: Durable, a: Attempt)
    requires !a.notOpen && !a.tableFault && !a.maxFault && Max(d.versions) < |a.files|
    ensures var k := Max(d.versions);
      var next := Durable(d.schema + [a.files[k]], d.versions + [k + 1]);
      match a.fault(k + 1)
      case NoFault => Outcome(d, a) == Outcome(next, a) && Succeeds(d, a) == Succeeds(next, a)
      case CommitUnacknowledged => Outcome(d, a) == next && !Succeeds(d, a)
      case _ => Outcome(d, a) == d && !Succeeds(d, a)
  {
    var k := Max(d.versions);
    var next := Durable(d.schema + [a.files[k]], d.versions + [k + 1]);
    hide Max, Extended, Counting, Reached, Completes;
    MaxOfNext(d.versions, k + 1);
    ExtendedOnce(d, a.files, k);
    ReachedNext(k, a.files, a.fault);
    ExtendedByNothing(d, a.files, k);
    if a.fault(k + 1) == NoFault {
      ExtendedSplits(d, a.files, k, k + 1, Reached(k + 1, a.files, a.fault));
      ExtendedByNothing(next, a.files, k + 1);
      if k + 1 == |a.files| {
        NothingAfterAll(k + 1, a.files, a.fault);
      }
    }
  }

  lemma ReachedNext(k: nat, files: seq<string>, fault: nat -> Fault)
    requires k < |files|
    ensures Reached(k, files, fault)
         == match fault(k + 1)
            case NoFault => Reached(k + 1, files, fault)
            case CommitUnacknowledged => k + 1
            case _ => k
    ensures Completes(k, files, fault) == (fault(k + 1) == NoFault && Completes(k + 1, files, fault))
  {
  }

  lemma NothingAfterAll(k: nat, files: seq<string>, fault: nat -> Fault)
    requires k == |files|
    ensures Reached(k, files, fault) == k && Completes(k, files, fault)
  {
  }

  lemma ExtendedOnce(d: Durable, files: seq<string>, k: nat)
    requires k < |files|
    ensures Extended(d, files, k, k) == d
    ensures Extended(d, files, k, k + 1) == Durable(d.schema + [files[k]], d.versions + [k + 1])
  {
    assert Counting(k, k + 1) == Counting(k, k) + [k + 1];
  }

  lemma ExtendedByNothing(d: Durable, files: seq<string>, k: nat)
    requires k <= |files|
    ensures Extended(d, files, k, k) == d
  {
  }

  lemma ExtendedSplits(d: Durable, files: seq<string>, k: nat, m: nat, n: nat)
    requires k <= m <= |files|
    ensures m <= n <= |files| ==>
      Extended(d, files, k, n) == Extended(Extended(d, files, k, m), files, m, n)
  {
    if m <= n <= |files| {
      CountingConcat(k, m, n);
      assert files[k..m] + files[m..n] == files[k..n];
      ConcatAssociative(d.schema, files[k..m], files[m..n]);
      ConcatAssociative(d.versions, Counting(k, m), Counting(m, n));
    }
  }

  lemma MaxOfNext(versions: seq<nat>, version: nat)
    requires version == Max(versions) + 1
    ensures Max(versions + [version]) == version
    ensures version !in versions
  {
    assert (versions + [version])[..|versions|] == versions;
    MaxIsUpperBound(versions);
  }

  lemma {:induction false} MaxIsUpperBound(versions: seq<nat>)
    ensures forall v :: v in versions ==> v <= Max(versions)
  {
    if versions == [] {
    } else {
      var n := |versions| - 1;
      MaxIsUpperBound(versions[..n]);
      assert versions == versions[..n] + [versions[n]];
    }
  }

  // ------------------------------------------------------- how far an attempt gets

  /** The attempt takes effect up to version `m`: everything before goes through, and `m` is where the
      files end, where the next version fails, or a version whose commit is not acknowledged. */
  ghost predicate GoesUpTo(k: nat, files: seq<string>, fault: nat -> Fault, m: nat) {
    && k <= m <= |files|
    && (forall v | k < v < m :: fault(v) == NoFault)
    && (k < m ==> fault(m) in {NoFault, CommitUnacknowledged})
    && (m < |files| ==> (k < m && fault(m) == CommitUnacknowledged) || fault(m + 1) !in {NoFault, CommitUnacknowledged})
  }

  lemma {:induction false} ReachedExactly(k: nat, files: seq<string>, fault: nat -> Fault, m: nat)
    requires k <= |files|
    ensures Reached(k, files, fault) == m <==> GoesUpTo(k, files, fault, m)
    decreases |files| - k
  {
    if k < |files| && fault(k + 1) == NoFault {
      ReachedExactly(k + 1, files, fault, m);
    }
  }

  lemma {:induction false} CompletesIff(k: nat, files: seq<string>, fault: nat -> Fault)
    ensures Completes(k, files, fault) <==> forall v | k < v <= |files| :: fault(v) == NoFault
    decreases |files| - k
  {
    if |files| <= k {
    } else {
      CompletesIff(k + 1, files, fault);
    }
  }

  /** What one attempt does to a database with versions 1..k: if it gets to the files at all, it applies
      and records exactly those up to the first obstacle; and it succeeds exactly when there is none. */
  lemma AttemptGoesUpTo(d: Durable, a: Attempt, m: nat)
    requires d.versions == Counting(0, |d.schema|) && |d.schema| <= |a.files|
    ensures var k, starts := |d.schema|, !a.notOpen && !a.tableFault && !a.maxFault;
      && (!starts ==> Outcome(d, a) == d && !Succeeds(d, a))
      && (starts && GoesUpTo(k, a.files, a.fault, m) ==> Outcome(d, a).schema == d.schema + a.files[k..m])
      && (Succeeds(d, a) <==> starts && forall v | k < v <= |a.files| :: a.fault(v) == NoFault)
  {
    var k := |d.schema|;
    MaxOfCounting(k);
    ReachedExactly(k, a.files, a.fault, m);
    CompletesIff(k, a.files, a.fault);
    if k == |a.files| {
      assert d.schema + a.files[k..k] == d.schema;
    }
  }

  // ------------------------------------------------------------ crash safety

  function RunInits(attempts: seq<Attempt>): Durable {
    if attempts == [] then FRESH
    else Outcome(RunInits(attempts[..|attempts| - 1]), attempts[|attempts| - 1])
  }

  /** Each listing of the directory extends the one before it. */
  ghost predicate AppendOnly(attempts: seq<Attempt>) {
    forall i, j :: 0 <= i <= j < |attempts| ==> attempts[i].files <= attempts[j].files
  }

  lemma {:induction false} MaxOfCounting(k: nat)
    ensures Max(Counting(0, k)) == k
  {
    if k == 0 {
    } else {
      MaxOfCounting(k - 1);
      MaxOfNext(Counting(0, k - 1), k);
    }
  }

  lemma {:induction false} CompletesReachesAll(k: nat, files: seq<string>, fault: nat -> Fault)
    requires k <= |files|
    ensures Completes(k, files, fault) ==> Reached(k, files, fault) == |files|
    decreases |files| - k
  {
    if k == |files| || fault(k + 1) != NoFault {
    } else {
      CompletesReachesAll(k + 1, files, fault);
    }
  }

  /** The schema is the first k files applied in order, and the versions recorded are 1..k. */
  ghost predicate Sound(d: Durable, files: seq<string>) {
    && |d.schema| <= |files|
    && d.schema == files[..|d.schema|]
    && d.versions == Counting(0, |d.schema|)
  }

  lemma {:induction false} CountingConcat(from: nat, mid: nat, to: nat)
    requires from <= mid <= to
    ensures Counting(from, mid) + Counting(mid, to) == Counting(from, to)
  {
    if mid == to {
    } else {
      CountingConcat(from, mid, to - 1);
      ConcatAssociative(Counting(from, mid), Counting(mid, to - 1), [to]);
    }
  }

  lemma ExtendedIsSound(d: Durable, files: seq<string>, m: nat)
    requires Sound(d, files) && |d.schema| <= m <= |files|
    ensures Sound(Extended(d, files, |d.schema|, m), files)
    ensures |Extended(d, files, |d.schema|, m).schema| == m
  {
    var k := |d.schema|;
    CountingConcat(0, k, m);
    assert files[..k] + files[k..m] == files[..m];
  }

  lemma AttemptKeepsSound(d: Durable, a: Attempt)
    requires Sound(d, a.files)
    ensures Sound(Outcome(d, a), a.files)
    ensures Succeeds(d, a) ==> |Outcome(d, a).schema| == |a.files|
  {
    var k := |d.schema|;
    MaxOfCounting(k);
    CompletesReachesAll(k, a.files, a.fault);
    ExtendedIsSound(d, a.files, Reached(k, a.files, a.fault));
  }

  /** Over any sequence of attempts, each cut short anywhere, the recorded versions are exactly
      1..k, where k is the number of scripts applied; those are the first k files in order, each
      once; and after a successful attempt none is pending. */
  lemma {:induction false} CrashSafety(attempts: seq<Attempt>)
    requires attempts != [] && AppendOnly(attempts)
    ensures var d, last := RunInits(attempts), attempts[|attempts| - 1];
      && |d.schema| <= |last.files|
      && d.schema == last.files[..|d.schema|]
      && d.versions == Counting(0, |d.schema|)
      && (Succeeds(RunInits(attempts[..|attempts| - 1]), last) ==> |d.schema| == |last.files|)
  {
    var n := |attempts| - 1;
    var before, last := RunInits(attempts[..n]), attempts[n];
    if n > 0 {
      CrashSafety(attempts[..n]);
      assert attempts[n - 1].files <= last.files;
    }
    assert Sound(before, last.files);
    AttemptKeepsSound(before, last);
  }
}
