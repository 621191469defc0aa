/** From the writes and balance expressions found in a contract's text to the table the scan reads. */
module MoneyFlow {
  import opened Wrappers
  import opened LedgerScan

  const RECEIVE: Name := 0

  datatype TextWrite = TextWrite(variable: Name, shape: Shape, kind: WriteKind)

  /** `variable - a - b` or `variable >= a` in a function body. */
  datatype Balance = Balance(variable: Name, subtracted: seq<Name>)

  /** One function body, or the body of receive(). */
  datatype CodeUnit = CodeUnit(fn: Name, writes: seq<TextWrite>, movesValue: bool, balances: seq<Balance>)

  /** The uint256 scalars and mappings declared at contract level, and the code. */
  datatype Contract = Contract(scalars: seq<Name>, mappings: seq<Name>, units: seq<CodeUnit>)

  predicate Credits(u: CodeUnit, n: Name, shape: Shape) {
    TextWrite(n, shape, Credit) in u.writes
  }

  predicate DebitsOrClears(u: CodeUnit, n: Name, shape: Shape) {
    TextWrite(n, shape, Debit) in u.writes || TextWrite(n, shape, Zero) in u.writes
  }

  /** Credited by receive() and spent somewhere. */
  predicate IsBucket(c: Contract, n: Name) {
    && (exists u :: u in c.units && u.fn == RECEIVE && Credits(u, n, Scalar))
    && (exists u :: u in c.units && DebitsOrClears(u, n, Scalar))
  }

  /** Credited somewhere, and cleared by a function that sends native value. */
  predicate IsLiability(c: Contract, n: Name) {
    && (exists u :: u in c.units && Credits(u, n, Mapping))
    && (exists u :: u in c.units && DebitsOrClears(u, n, Mapping) && u.movesValue)
  }

  function ScalarVariable(c: Contract, n: Name): Variable {
    Variable(n, if IsBucket(c, n) then Bucket else Counter, Scalar)
  }

  function Variables(c: Contract): seq<Variable> {
    MapSeq(c.scalars, (n: Name) => ScalarVariable(c, n))
    + MapSeq(Filter(c.mappings, (n: Name) => IsLiability(c, n)), (n: Name) => Variable(n, Liability, Mapping))
  }

  /** Credits are listed before debits, and debits before plain assignments. */
  function WritesTo(u: CodeUnit, v: Variable): seq<Write> {
    var own := Filter(u.writes, (w: TextWrite) => w.variable == v.name && w.shape == v.shape);
    var ordered := Filter(own, (w: TextWrite) => w.kind == Credit) + Filter(own, (w: TextWrite) => w.kind == Debit)
                   + Filter(own, (w: TextWrite) => w.kind == Zero || w.kind == Assign);
    MapSeq(ordered, (w: TextWrite) => Write(u.fn, v.name, w.kind))
  }

  function UnitWrites(u: CodeUnit, vs: seq<Variable>): seq<Write> {
    if vs == [] then [] else WritesTo(u, vs[0]) + UnitWrites(u, vs[1..])
  }

  function AllWrites(units: seq<CodeUnit>, vs: seq<Variable>): seq<Write> {
    if units == [] then [] else UnitWrites(units[0], vs) + AllWrites(units[1..], vs)
  }

  function UnitBalances(u: CodeUnit, buckets: seq<Name>): seq<FreeBalance> {
    if buckets == [] then []
    else MapSeq(Filter(u.balances, (b: Balance) => b.variable == buckets[0]),
                (b: Balance) => FreeBalance(u.fn, buckets[0], b.subtracted))
         + UnitBalances(u, buckets[1..])
  }

  function AllBalances(units: seq<CodeUnit>, buckets: seq<Name>): seq<FreeBalance> {
    if units == [] then [] else UnitBalances(units[0], buckets) + AllBalances(units[1..], buckets)
  }

  function BuildMoneyFlowTable(c: Contract): Table {
    var buckets := Unique(Filter(c.scalars, (n: Name) => IsBucket(c, n)));
    Table(Variables(c), AllWrites(c.units, Variables(c)), AllBalances(c.units, buckets))
  }

  // ---- What the table contains ----

  lemma {:induction false} RoleOfAppend(a: seq<Variable>, b: seq<Variable>, n: Name)
    ensures RoleOf(a + b, n) == if RoleOf(a, n).Some? then RoleOf(a, n) else RoleOf(b, n)
  {
    if a == [] {
      assert a + b == b;
    } else {
      assert (a + b)[1..] == a[1..] + b;
      RoleOfAppend(a[1..], b, n);
    }
  }

  lemma {:induction false} RoleOfUniform(vs: seq<Variable>, n: Name, role: Role)
    requires forall v :: v in vs && v.name == n ==> v.role == role
    ensures RoleOf(vs, n) == if exists v :: v in vs && v.name == n then Some(role) else None
  {
    if vs != [] {
      RoleOfUniform(vs[1..], n, role);
      assert forall v :: v in vs <==> v == vs[0] || v in vs[1..];
    }
  }

  /** Scalars are buckets or counters; a mapping counts only when it is a liability. */
  function RoleIn(c: Contract, n: Name): Option<Role> {
    if n in c.scalars then Some(if IsBucket(c, n) then Bucket else Counter)
    else if n in c.mappings && IsLiability(c, n) then Some(Liability)
    else None
  }

  lemma RolesInTable(c: Contract, n: Name)
    ensures RoleOf(BuildMoneyFlowTable(c).variables, n) == RoleIn(c, n)
  {
    var scalars := MapSeq(c.scalars, (m: Name) => ScalarVariable(c, m));
    var owed := Filter(c.mappings, (m: Name) => IsLiability(c, m));
    var mappings := MapSeq(owed, (m: Name) => Variable(m, Liability, Mapping));
    RoleOfAppend(scalars, mappings, n);
    RoleOfUniform(scalars, n, if IsBucket(c, n) then Bucket else Counter);
    RoleOfUniform(mappings, n, Liability);
    if n in c.scalars {
      var i :| 0 <= i < |c.scalars| && c.scalars[i] == n;
      assert scalars[i] == ScalarVariable(c, n);
    }
    if n in owed {
      var i :| 0 <= i < |owed| && owed[i] == n;
      assert mappings[i] == Variable(n, Liability, Mapping);
    }
  }

  ghost predicate Declared(vs: seq<Variable>, x: TextWrite) {
    exists v :: v in vs && v.name == x.variable && v.shape == x.shape
  }

  lemma WritesToMembers(u: CodeUnit, v: Variable, w: Write)
    ensures w in WritesTo(u, v) <==>
            w.fn == u.fn && w.variable == v.name && TextWrite(v.name, v.shape, w.kind) in u.writes
  {
    var own := Filter(u.writes, (x: TextWrite) => x.variable == v.name && x.shape == v.shape);
    var ordered := Filter(own, (x: TextWrite) => x.kind == Credit) + Filter(own, (x: TextWrite) => x.kind == Debit)
                   + Filter(own, (x: TextWrite) => x.kind == Zero || x.kind == Assign);
    assert forall x :: x in ordered <==> x in own;
    if w.fn == u.fn && w.variable == v.name && TextWrite(v.name, v.shape, w.kind) in u.writes {
      var i :| 0 <= i < |ordered| && ordered[i] == TextWrite(v.name, v.shape, w.kind);
      assert WritesTo(u, v)[i] == w;
    }
    if w in WritesTo(u, v) {
      var i :| 0 <= i < |ordered| && WritesTo(u, v)[i] == w;
      assert ordered[i] in own;
      assert ordered[i] == TextWrite(v.name, v.shape, w.kind);
    }
  }

  ghost predicate WrittenIn(u: CodeUnit, vs: seq<Variable>, w: Write) {
    exists x :: x in u.writes && Declared(vs, x) && w == Write(u.fn, x.variable, x.kind)
  }

  lemma {:induction false} UnitWritesMembers(u: CodeUnit, vs: seq<Variable>, w: Write)
    ensures w in UnitWrites(u, vs) <==> WrittenIn(u, vs, w)
  {
    if vs != [] {
      WritesToMembers(u, vs[0], w);
      UnitWritesMembers(u, vs[1..], w);
      assert forall x :: Declared(vs, x) <==>
                         (vs[0].name == x.variable && vs[0].shape == x.shape) || Declared(vs[1..], x) by {
        assert forall v :: v in vs <==> v == vs[0] || v in vs[1..];
      }
      if w in WritesTo(u, vs[0]) {
        var x := TextWrite(vs[0].name, vs[0].shape, w.kind);
        assert x in u.writes && Declared(vs, x);
      }
    }
  }

  lemma {:induction false} AllWritesMembers(units: seq<CodeUnit>, vs: seq<Variable>, w: Write)
    ensures w in AllWrites(units, vs) <==> exists i :: 0 <= i < |units| && WrittenIn(units[i], vs, w)
  {
    if units != [] {
      UnitWritesMembers(units[0], vs, w);
      AllWritesMembers(units[1..], vs, w);
      if w in AllWrites(units[1..], vs) {
        var i :| 0 <= i < |units[1..]| && WrittenIn(units[1..][i], vs, w);
        assert WrittenIn(units[i + 1], vs, w);
      }
      if i :| 0 <= i < |units| && WrittenIn(units[i], vs, w) {
        assert i > 0 ==> WrittenIn(units[1..][i - 1], vs, w);
      }
    }
  }

  lemma {:induction false} UnitBalancesMembers(u: CodeUnit, buckets: seq<Name>, e: FreeBalance)
    ensures e in UnitBalances(u, buckets) <==>
            e.fn == u.fn && e.bucket in buckets && Balance(e.bucket, e.subtracted) in u.balances
  {
    if buckets != [] {
      UnitBalancesMembers(u, buckets[1..], e);
      var own := Filter(u.balances, (b: Balance) => b.variable == buckets[0]);
      var first := MapSeq(own, (b: Balance) => FreeBalance(u.fn, buckets[0], b.subtracted));
      if e in first {
        var i :| 0 <= i < |first| && first[i] == e;
        assert own[i] in own && own[i] == Balance(e.bucket, e.subtracted);
      }
      if e.fn == u.fn && e.bucket == buckets[0] && Balance(e.bucket, e.subtracted) in u.balances {
        var i :| 0 <= i < |own| && own[i] == Balance(e.bucket, e.subtracted);
        assert first[i] == e;
      }
    }
  }

  lemma {:induction false} AllBalancesMembers(units: seq<CodeUnit>, buckets: seq<Name>, e: FreeBalance)
    ensures e in AllBalances(units, buckets) <==>
            exists u ::
              u in units && e.fn == u.fn && e.bucket in buckets && Balance(e.bucket, e.subtracted) in u.balances
  {
    if units != [] {
      UnitBalancesMembers(units[0], buckets, e);
      AllBalancesMembers(units[1..], buckets, e);
      assert forall u :: u in units <==> u == units[0] || u in units[1..];
    }
  }

  /** The contract computes this free balance of one of its buckets. */
  ghost predicate Computes(c: Contract, e: FreeBalance) {
    && e.bucket in c.scalars && IsBucket(c, e.bucket)
    && exists u :: u in c.units && e.fn == u.fn && Balance(e.bucket, e.subtracted) in u.balances
  }

  lemma BalancesInTable(c: Contract, e: FreeBalance)
    ensures e in BuildMoneyFlowTable(c).freeBalance <==> Computes(c, e)
  {
    AllBalancesMembers(c.units, Unique(Filter(c.scalars, (n: Name) => IsBucket(c, n))), e);
  }

  ghost predicate Tracked(c: Contract, x: TextWrite) {
    match x.shape
    case Scalar => x.variable in c.scalars
    case Mapping => x.variable in c.mappings && IsLiability(c, x.variable)
  }

  lemma DeclaredIffTracked(c: Contract, x: TextWrite)
    ensures Declared(Variables(c), x) <==> Tracked(c, x)
  {
    var scalars := MapSeq(c.scalars, (n: Name) => ScalarVariable(c, n));
    var owed := Filter(c.mappings, (n: Name) => IsLiability(c, n));
    var mappings := MapSeq(owed, (n: Name) => Variable(n, Liability, Mapping));
    assert forall v :: v in Variables(c) <==> v in scalars || v in mappings;
    if x.shape == Scalar && x.variable in c.scalars {
      var i :| 0 <= i < |c.scalars| && c.scalars[i] == x.variable;
      assert scalars[i] in Variables(c);
    }
    if x.shape == Mapping && x.variable in owed {
      var i :| 0 <= i < |owed| && owed[i] == x.variable;
      assert mappings[i] in Variables(c);
    }
  }

  /** Some function of the contract makes this write to a tracked variable. */
  ghost predicate Makes(c: Contract, w: Write) {
    exists i, shape :: && 0 <= i < |c.units| && c.units[i].fn == w.fn
                       && TextWrite(w.variable, shape, w.kind) in c.units[i].writes
                       && Tracked(c, TextWrite(w.variable, shape, w.kind))
  }

  lemma WritesInTable(c: Contract, w: Write)
    ensures w in BuildMoneyFlowTable(c).writes <==> Makes(c, w)
  {
    var vs := Variables(c);
    AllWritesMembers(c.units, vs, w);
    DeclaredIffTracked(c, TextWrite(w.variable, Scalar, w.kind));
    DeclaredIffTracked(c, TextWrite(w.variable, Mapping, w.kind));
    if i :| 0 <= i < |c.units| && WrittenIn(c.units[i], vs, w) {
      var x :| x in c.units[i].writes && Declared(vs, x) && w == Write(c.units[i].fn, x.variable, x.kind);
      assert x == TextWrite(w.variable, x.shape, w.kind);
    }
    if i, shape :| && 0 <= i < |c.units| && c.units[i].fn == w.fn
                   && TextWrite(w.variable, shape, w.kind) in c.units[i].writes
                   && Tracked(c, TextWrite(w.variable, shape, w.kind)) {
      assert WrittenIn(c.units[i], vs, w);
    }
  }

  /** The names under which the scan looks for liabilities. */
  lemma LiabilitiesInTable(c: Contract, n: Name)
    ensures n in NamesOf(BuildMoneyFlowTable(c), Liability) <==> n in c.mappings && IsLiability(c, n)
  {
    hide RoleOf, AllWrites, AllBalances, IsBucket, IsLiability;
    var scalars := MapSeq(c.scalars, (m: Name) => ScalarVariable(c, m));
    var owed := Filter(c.mappings, (m: Name) => IsLiability(c, m));
    var mappings := MapSeq(owed, (m: Name) => Variable(m, Liability, Mapping));
    var declared := Filter(Variables(c), (v: Variable) => v.role == Liability);
    assert forall v :: v in Variables(c) <==> v in scalars || v in mappings;
    if n in owed {
      var i :| 0 <= i < |owed| && owed[i] == n;
      assert mappings[i] in declared;
      var j :| 0 <= j < |declared| && declared[j] == mappings[i];
      assert NamesOf(BuildMoneyFlowTable(c), Liability)[j] == n;
    }
    if n in NamesOf(BuildMoneyFlowTable(c), Liability) {
      var j :| 0 <= j < |declared| && declared[j].name == n;
      assert declared[j] in declared;
      assert declared[j] in mappings;
    }
  }

  /** A table says about a contract what its text says: roles, writes, free balances and liabilities. */
  ghost predicate Describes(t: Table, c: Contract) {
    && (forall n :: RoleOf(t.variables, n) == RoleIn(c, n))
    && (forall w :: w in t.writes <==> Makes(c, w))
    && (forall e :: e in t.freeBalance <==> Computes(c, e))
    && (forall n :: n in NamesOf(t, Liability) <==> n in c.mappings && IsLiability(c, n))
    && ((exists v :: v in t.variables && v.role == Bucket) <==> exists n :: n in c.scalars && IsBucket(c, n))
  }

  lemma BuiltTableDescribes(c: Contract)
    ensures Describes(BuildMoneyFlowTable(c), c)
  {
    var t := BuildMoneyFlowTable(c);
    forall n ensures RoleOf(t.variables, n) == RoleIn(c, n) {
      RolesInTable(c, n);
    }
    forall n ensures n in NamesOf(t, Liability) <==> n in c.mappings && IsLiability(c, n) {
      LiabilitiesInTable(c, n);
    }
    forall w ensures w in t.writes <==> Makes(c, w) {
      WritesInTable(c, w);
    }
    forall e ensures e in t.freeBalance <==> Computes(c, e) {
      BalancesInTable(c, e);
    }
    BucketsInTable(c);
  }

  lemma BucketsInTable(c: Contract)
    ensures (exists v :: v in Variables(c) && v.role == Bucket) <==> exists n :: n in c.scalars && IsBucket(c, n)
  {
    var scalars := MapSeq(c.scalars, (m: Name) => ScalarVariable(c, m));
    if n :| n in c.scalars && IsBucket(c, n) {
      var i :| 0 <= i < |c.scalars| && c.scalars[i] == n;
      assert scalars[i] == Variable(n, Bucket, Scalar) && scalars[i] in Variables(c);
    }
    if v :| v in Variables(c) && v.role == Bucket {
      assert v in scalars;
      var i :| 0 <= i < |scalars| && scalars[i] == v;
      assert c.scalars[i] in c.scalars;
    }
  }
}
