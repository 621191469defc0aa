/** The scan's verdict on a contract, in terms of what the contract's code writes, checks and sends. */
module LedgerTerms {
  import opened Wrappers
  import opened LedgerScan
  import opened MoneyFlow

  ghost predicate Wrote(c: Contract, fn: Name, n: Name, shape: Shape, kind: WriteKind) {
    exists u :: u in c.units && u.fn == fn && TextWrite(n, shape, kind) in u.writes
  }

  /** A scalar that receive() adds to, and that some function takes from or clears. */
  ghost predicate HoldsMoney(c: Contract, n: Name) {
    && n in c.scalars && Wrote(c, RECEIVE, n, Scalar, Credit)
    && ((exists fn :: Wrote(c, fn, n, Scalar, Debit)) || (exists fn :: Wrote(c, fn, n, Scalar, Zero)))
  }

  /** A mapping that is added to, and that a function sending native value takes from or clears. */
  ghost predicate OwesMoney(c: Contract, n: Name) {
    && n in c.mappings && (exists fn :: Wrote(c, fn, n, Mapping, Credit))
    && exists u :: && u in c.units && u.movesValue
                   && (TextWrite(n, Mapping, Debit) in u.writes || TextWrite(n, Mapping, Zero) in u.writes)
  }

  ghost predicate Touches(c: Contract, fn: Name, n: Name, kind: WriteKind) {
    (n in c.scalars && Wrote(c, fn, n, Scalar, kind)) || (OwesMoney(c, n) && Wrote(c, fn, n, Mapping, kind))
  }

  /** Some other function computes what a bucket has left, less a state variable but not what is owed here. */
  ghost predicate SpendsTwice(
    c: Contract, liability: Name, fn: Name, u: CodeUnit, bucket: Name, subtracted: seq<Name>)
  {
    && u in c.units && u.fn != fn && HoldsMoney(c, bucket) && Balance(bucket, subtracted) in u.balances
    && liability !in subtracted && exists n :: n in subtracted && (n in c.scalars || OwesMoney(c, n))
  }

  /** What the scan reports. */
  ghost predicate Unsound(c: Contract, liability: Name, fn: Name) {
    && (exists n :: HoldsMoney(c, n)) && Touches(c, fn, liability, Credit)
    && !(exists n :: HoldsMoney(c, n) && (Touches(c, fn, n, Debit) || Touches(c, fn, n, Zero)))
    && !(exists n :: n in c.scalars && !HoldsMoney(c, n) && Touches(c, fn, n, Credit))
    && ((exists n :: n in c.scalars && !HoldsMoney(c, n) && Touches(c, fn, n, Debit))
        || exists u, bucket, subtracted :: SpendsTwice(c, liability, fn, u, bucket, subtracted))
  }

  // ---- Roles ----

  lemma BucketIs(c: Contract, n: Name)
    ensures n in c.scalars && IsBucket(c, n) <==> HoldsMoney(c, n)
  {
    if IsBucket(c, n) {
      var u :| u in c.units && DebitsOrClears(u, n, Scalar);
      assert Wrote(c, u.fn, n, Scalar, Debit) || Wrote(c, u.fn, n, Scalar, Zero);
    }
  }

  lemma LiabilityIs(c: Contract, n: Name)
    ensures n in c.mappings && IsLiability(c, n) <==> OwesMoney(c, n)
  {
    if IsLiability(c, n) {
      var u :| u in c.units && Credits(u, n, Mapping);
      assert Wrote(c, u.fn, n, Mapping, Credit);
    }
  }

  lemma MakesIs(c: Contract, fn: Name, n: Name, kind: WriteKind)
    ensures Makes(c, Write(fn, n, kind)) <==> Touches(c, fn, n, kind)
  {
    hide IsLiability;
    LiabilityIs(c, n);
    if Makes(c, Write(fn, n, kind)) {
      var i, shape :| && 0 <= i < |c.units| && c.units[i].fn == fn && TextWrite(n, shape, kind) in c.units[i].writes
                      && Tracked(c, TextWrite(n, shape, kind));
      assert c.units[i] in c.units && Wrote(c, fn, n, shape, kind);
    }
    if Touches(c, fn, n, kind) {
      var shape := if n in c.scalars && Wrote(c, fn, n, Scalar, kind) then Scalar else Mapping;
      var u :| u in c.units && u.fn == fn && TextWrite(n, shape, kind) in u.writes;
      var i :| 0 <= i < |c.units| && c.units[i] == u;
      assert Tracked(c, TextWrite(n, shape, kind));
    }
  }

  lemma RoleIs(c: Contract, n: Name)
    ensures RoleIn(c, n) == Some(Bucket) <==> HoldsMoney(c, n)
    ensures RoleIn(c, n) == Some(Counter) <==> n in c.scalars && !HoldsMoney(c, n)
  {
    hide IsBucket, IsLiability;
    BucketIs(c, n);
  }

  // ---- The verdict ----

  lemma TracksIs(c: Contract, t: Table, fn: Name)
    requires Describes(t, c)
    ensures (exists w :: Tracks(t, fn, w))
            <==> || (exists n :: HoldsMoney(c, n) && (Touches(c, fn, n, Debit) || Touches(c, fn, n, Zero)))
                 || (exists n :: n in c.scalars && !HoldsMoney(c, n) && Touches(c, fn, n, Credit))
  {
    hide Makes, Touches, HoldsMoney, RoleIn;
    if w :| Tracks(t, fn, w) {
      MakesIs(c, fn, w.variable, w.kind);
      RoleIs(c, w.variable);
      assert w == Write(fn, w.variable, w.kind);
    }
    forall n | HoldsMoney(c, n) || (n in c.scalars && !HoldsMoney(c, n))
      ensures HoldsMoney(c, n) && Touches(c, fn, n, Debit) ==> Tracks(t, fn, Write(fn, n, Debit))
      ensures HoldsMoney(c, n) && Touches(c, fn, n, Zero) ==> Tracks(t, fn, Write(fn, n, Zero))
      ensures !HoldsMoney(c, n) && Touches(c, fn, n, Credit) ==> Tracks(t, fn, Write(fn, n, Credit))
    {
      MakesIs(c, fn, n, Debit);
      MakesIs(c, fn, n, Zero);
      MakesIs(c, fn, n, Credit);
      RoleIs(c, n);
    }
  }

  lemma ReleasesIs(c: Contract, t: Table, fn: Name)
    requires Describes(t, c)
    ensures (exists w :: Releases(t, fn, w))
            <==> exists n :: n in c.scalars && !HoldsMoney(c, n) && Touches(c, fn, n, Debit)
  {
    hide Makes, Touches, HoldsMoney, RoleIn;
    if w :| Releases(t, fn, w) {
      MakesIs(c, fn, w.variable, w.kind);
      RoleIs(c, w.variable);
      assert w == Write(fn, w.variable, w.kind);
    }
    if n :| n in c.scalars && !HoldsMoney(c, n) && Touches(c, fn, n, Debit) {
      MakesIs(c, fn, n, Debit);
      RoleIs(c, n);
      assert Releases(t, fn, Write(fn, n, Debit));
    }
  }

  lemma DeclaredIs(c: Contract, n: Name)
    ensures (exists v :: v in Variables(c) && v.name == n) <==> n in c.scalars || OwesMoney(c, n)
  {
    hide IsLiability, IsBucket;
    LiabilityIs(c, n);
    DeclaredIffTracked(c, TextWrite(n, Scalar, Credit));
    DeclaredIffTracked(c, TextWrite(n, Mapping, Credit));
    if v :| v in Variables(c) && v.name == n {
      assert v.shape == Scalar || v.shape == Mapping;
    }
  }

  lemma AllocatesIs(c: Contract, liability: Name, fn: Name)
    ensures (exists e :: Allocates(BuildMoneyFlowTable(c), liability, fn, e))
            <==> exists u, bucket, subtracted :: SpendsTwice(c, liability, fn, u, bucket, subtracted)
  {
    hide Variables, AllWrites, AllBalances, IsBucket, IsLiability, HoldsMoney, OwesMoney;
    var t := BuildMoneyFlowTable(c);
    if e :| Allocates(t, liability, fn, e) {
      BalancesInTable(c, e);
      BucketIs(c, e.bucket);
      var u :| u in c.units && e.fn == u.fn && Balance(e.bucket, e.subtracted) in u.balances;
      var v :| v in t.variables && v.name in e.subtracted;
      DeclaredIs(c, v.name);
      assert SpendsTwice(c, liability, fn, u, e.bucket, e.subtracted);
    }
    if u, bucket, subtracted :| SpendsTwice(c, liability, fn, u, bucket, subtracted) {
      var e := FreeBalance(u.fn, bucket, subtracted);
      BucketIs(c, bucket);
      BalancesInTable(c, e);
      var n :| n in subtracted && (n in c.scalars || OwesMoney(c, n));
      DeclaredIs(c, n);
      assert Allocates(t, liability, fn, e);
    }
  }

  /** The scan of a contract's table reports exactly the credits that are unsound in its code. */
  lemma ScanIs(c: Contract, liability: Name, fn: Name)
    ensures liability in NamesOf(BuildMoneyFlowTable(c), Liability) <==> OwesMoney(c, liability)
    ensures Flagged(BuildMoneyFlowTable(c), liability, fn) <==> Unsound(c, liability, fn)
  {
    hide Tracks, Releases, Allocates, SpendsTwice, HoldsMoney, Touches, OwesMoney, Makes, IsBucket, IsLiability, RoleIn,
         BuildMoneyFlowTable;
    var t := BuildMoneyFlowTable(c);
    BuiltTableDescribes(c);
    LiabilityIs(c, liability);
    MakesIs(c, fn, liability, Credit);
    TracksIs(c, t, fn);
    ReleasesIs(c, t, fn);
    AllocatesIs(c, liability, fn);
    SomeBucket(c, t);
  }

  lemma SomeBucket(c: Contract, t: Table)
    requires Describes(t, c)
    ensures (exists v :: v in t.variables && v.role == Bucket) <==> exists n :: HoldsMoney(c, n)
  {
    hide IsBucket, HoldsMoney;
    if n :| n in c.scalars && IsBucket(c, n) {
      BucketIs(c, n);
    }
    if n :| HoldsMoney(c, n) {
      BucketIs(c, n);
    }
  }

  // ---- The order of the table ----

  /** The scalars in the order of declaration, and then the mappings that owe money in theirs. */
  lemma VariablesAre(c: Contract)
    ensures var vs, n := BuildMoneyFlowTable(c).variables, |c.scalars|;
            && n <= |vs|
            && (forall i :: 0 <= i < n ==>
                  vs[i] == Variable(c.scalars[i], if HoldsMoney(c, c.scalars[i]) then Bucket else Counter, Scalar))
            && (forall i :: n <= i < |vs| ==> vs[i].role == Liability && vs[i].shape == Mapping)
    ensures var vs, n := BuildMoneyFlowTable(c).variables, |c.scalars|;
            forall i, j :: n <= i < j < |vs| && vs[i].name != vs[j].name && vs[j].name !in Names(vs[n..i]) ==>
                             Before(c.mappings, vs[i].name, vs[j].name)
  {
    hide IsBucket, IsLiability, HoldsMoney, AllWrites, AllBalances;
    var vs, n := BuildMoneyFlowTable(c).variables, |c.scalars|;
    var keep := (m: Name) => IsLiability(c, m);
    var owed := Filter(c.mappings, keep);
    assert forall i :: n <= i < |vs| ==> vs[i] == Variable(owed[i - n], Liability, Mapping);
    forall i | 0 <= i < n
      ensures vs[i] == Variable(c.scalars[i], if HoldsMoney(c, c.scalars[i]) then Bucket else Counter, Scalar)
    {
      BucketIs(c, c.scalars[i]);
    }
    forall i, j | n <= i < j < |vs| && vs[i].name != vs[j].name && vs[j].name !in Names(vs[n..i])
      ensures Before(c.mappings, vs[i].name, vs[j].name)
    {
      forall k | 0 <= k < i - n
        ensures owed[k] != vs[j].name
      {
        assert Names(vs[n..i])[k] == owed[k];
      }
      assert owed[i - n] == vs[i].name && vs[j].name !in owed[..i - n];
      assert keep(vs[j].name);
      FilterBefore(c.mappings, keep, vs[i].name, vs[j].name);
    }
  }

  function Names(vs: seq<Variable>): (r: seq<Name>)
    ensures |r| == |vs| && forall i :: 0 <= i < |vs| ==> r[i] == vs[i].name
  {
    seq(|vs|, i requires 0 <= i < |vs| => vs[i].name)
  }

  ghost predicate Rising(places: seq<nat>) {
    forall i, j :: 0 <= i < j < |places| ==> places[i] <= places[j]
  }

  /** Writes are listed by the code unit that makes them, in the order of the units. */
  lemma {:induction false} WritesByUnit(units: seq<CodeUnit>, vs: seq<Variable>) returns (places: seq<nat>)
    ensures |places| == |AllWrites(units, vs)| && Rising(places)
    ensures forall k :: 0 <= k < |places| ==>
                          places[k] < |units| && WrittenIn(units[places[k]], vs, AllWrites(units, vs)[k])
  {
    hide WrittenIn, UnitWrites;
    places := [];
    if units != [] {
      var rest := WritesByUnit(units[1..], vs);
      var first := UnitWrites(units[0], vs);
      places := seq(|first|, k => 0) + seq(|rest|, k requires 0 <= k < |rest| => rest[k] + 1);
      forall k | 0 <= k < |places|
        ensures places[k] < |units| && WrittenIn(units[places[k]], vs, AllWrites(units, vs)[k])
      {
        if k < |first| {
          UnitWritesMembers(units[0], vs, first[k]);
        } else {
          assert units[1..][rest[k - |first|]] == units[places[k]];
        }
      }
    }
  }

  lemma {:induction false} BalancesByUnit(units: seq<CodeUnit>, buckets: seq<Name>) returns (places: seq<nat>)
    ensures |places| == |AllBalances(units, buckets)| && Rising(places)
    ensures forall k :: 0 <= k < |places| ==>
                          && places[k] < |units|
                          && var e, u := AllBalances(units, buckets)[k], units[places[k]];
                             e.fn == u.fn && e.bucket in buckets && Balance(e.bucket, e.subtracted) in u.balances
  {
    hide UnitBalances;
    places := [];
    if units != [] {
      var rest := BalancesByUnit(units[1..], buckets);
      var first := UnitBalances(units[0], buckets);
      places := seq(|first|, k => 0) + seq(|rest|, k requires 0 <= k < |rest| => rest[k] + 1);
      forall k | 0 <= k < |places|
        ensures && places[k] < |units|
                && var e, u := AllBalances(units, buckets)[k], units[places[k]];
                   e.fn == u.fn && e.bucket in buckets && Balance(e.bucket, e.subtracted) in u.balances
      {
        if k < |first| {
          UnitBalancesMembers(units[0], buckets, first[k]);
        } else {
          assert units[1..][rest[k - |first|]] == units[places[k]];
        }
      }
    }
  }
}
