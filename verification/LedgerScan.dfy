/**
 * The deterministic solvency scan over an extracted money-flow table, and the classification of variables
 * that builds the table. The text matching that finds writes and balance expressions is the input here.
 */
module LedgerScan {
  import opened Wrappers

  /** Identifiers of variables and functions, interned: the scan only compares them. */
  type Name = nat

  datatype Role = Bucket | Liability | Counter

  datatype Shape = Scalar | Mapping

  datatype Variable = Variable(name: Name, role: Role, shape: Shape)

  datatype WriteKind = Credit | Debit | Zero | Assign

  datatype Write = Write(fn: Name, variable: Name, kind: WriteKind)

  /** A place where a bucket's free balance is computed, with the variables subtracted from it. */
  datatype FreeBalance = FreeBalance(fn: Name, bucket: Name, subtracted: seq<Name>)

  datatype Table = Table(variables: seq<Variable>, writes: seq<Write>, freeBalance: seq<FreeBalance>)

  /** The parts of a finding's text that depend on the table. */
  datatype Finding = Finding(
    liability: Name, fn: Name, bucket: Name, released: seq<Name>, allocation: Option<FreeBalance>)

  function Filter<T(!new)>(xs: seq<T>, keep: T -> bool): (r: seq<T>)
    ensures forall x :: x in r <==> x in xs && keep(x)
  {
    if xs == [] then []
    else (if keep(xs[0]) then [xs[0]] else []) + Filter(xs[1..], keep)
  }

  function MapSeq<T, U>(xs: seq<T>, f: T -> U): (r: seq<U>)
    ensures |r| == |xs| && forall i :: 0 <= i < |xs| ==> r[i] == f(xs[i])
  {
    seq(|xs|, i requires 0 <= i < |xs| => f(xs[i]))
  }

  ghost predicate Distinct<T>(xs: seq<T>) {
    forall i, j :: 0 <= i < j < |xs| ==> xs[i] != xs[j]
  }

  /** The first x comes before every y. */
  ghost predicate Before<T>(xs: seq<T>, x: T, y: T) {
    exists k :: 0 <= k < |xs| && xs[k] == x && y !in xs[..k]
  }

  ghost predicate InOrderOf<T(!new)>(xs: seq<T>, r: seq<T>) {
    forall i, j :: 0 <= i < j < |r| ==> Before(xs, r[i], r[j])
  }

  /** The elements of a Set filled from a list, in insertion order. */
  function Unique<T(==, !new)>(xs: seq<T>): (r: seq<T>)
    ensures Distinct(r) && forall x :: x in r <==> x in xs
  {
    if xs == [] then []
    else
      var r := Unique(xs[..|xs| - 1]);
      assert xs == xs[..|xs| - 1] + [xs[|xs| - 1]];
      if xs[|xs| - 1] in r then r else r + [xs[|xs| - 1]]
  }

  lemma UniqueInOrder<T(!new)>(xs: seq<T>)
    ensures InOrderOf(xs, Unique(xs))
  {
    hide Unique, Before;
    forall i, j | 0 <= i < j < |Unique(xs)|
      ensures Before(xs, Unique(xs)[i], Unique(xs)[j])
    {
      UniqueBefore(xs, i, j);
    }
  }

  lemma {:induction false} UniqueBefore<T(!new)>(xs: seq<T>, i: nat, j: nat)
    requires i < j < |Unique(xs)|
    ensures Before(xs, Unique(xs)[i], Unique(xs)[j])
  {
    hide Before;
    var front, last := xs[..|xs| - 1], xs[|xs| - 1];
    var r := Unique(front);
    assert xs == front + [last];
    if j < |r| {
      UniqueBefore(front, i, j);
    }
    assert r[i] in front;
    OneLonger(front, last, r[i], Unique(xs)[j], j < |r|);
  }

  lemma OneLonger<T(!new)>(front: seq<T>, last: T, x: T, y: T, inside: bool)
    requires x in front && (if inside then Before(front, x, y) else y !in front)
    ensures Before(front + [last], x, y)
  {
    var k :| 0 <= k < |front| && front[k] == x && y !in front[..k];
    assert (front + [last])[..k] == front[..k] && (front + [last])[k] == x;
  }

  lemma {:induction false} FilterBefore<T(!new)>(xs: seq<T>, keep: T -> bool, x: T, y: T)
    requires keep(y) && Before(Filter(xs, keep), x, y)
    ensures Before(xs, x, y)
  {
    var r, rest := Filter(xs, keep), Filter(xs[1..], keep);
    var k :| 0 <= k < |r| && r[k] == x && y !in r[..k];
    if keep(xs[0]) && k == 0 {
      assert xs[0] == x;
    } else {
      if keep(xs[0]) {
        assert r[..k] == [xs[0]] + rest[..k - 1] && rest[k - 1] == x;
      } else {
        assert r == rest;
      }
      FilterBefore(xs[1..], keep, x, y);
      BeforeBehind(xs, x, y);
    }
  }

  lemma BeforeBehind<T(!new)>(xs: seq<T>, x: T, y: T)
    requires xs != [] && y != xs[0] && Before(xs[1..], x, y)
    ensures Before(xs, x, y)
  {
    var n :| 0 <= n < |xs[1..]| && xs[1..][n] == x && y !in xs[1..][..n];
    assert xs[..n + 1] == [xs[0]] + xs[1..][..n] && xs[n + 1] == x;
  }

  /** The first element kept is the first one to keep. */
  lemma {:induction false} FilterFirst<T(!new)>(xs: seq<T>, keep: T -> bool) returns (k: nat)
    requires Filter(xs, keep) != []
    ensures k < |xs| && xs[k] == Filter(xs, keep)[0] && forall m :: 0 <= m < k ==> !keep(xs[m])
  {
    if keep(xs[0]) {
      k := 0;
    } else {
      var n := FilterFirst(xs[1..], keep);
      k := n + 1;
      assert forall m :: 0 < m < k ==> xs[m] == xs[1..][m - 1];
    }
  }

  /** A name has the role of its first declaration. */
  function RoleOf(variables: seq<Variable>, name: Name): Option<Role> {
    if variables == [] then None
    else if variables[0].name == name then Some(variables[0].role)
    else RoleOf(variables[1..], name)
  }

  function NamesOf(t: Table, role: Role): (names: seq<Name>) {
    MapSeq(Filter(t.variables, (v: Variable) => v.role == role), (v: Variable) => v.name)
  }

  /** The functions crediting a liability, each once. */
  function CreditFns(t: Table, liability: Name): (fns: seq<Name>)
    ensures Distinct(fns)
    ensures forall f :: f in fns <==> Write(f, liability, Credit) in t.writes
  {
    var credits := Filter(t.writes, (w: Write) => w.variable == liability && w.kind == Credit);
    var fns := MapSeq(credits, (w: Write) => w.fn);
    assert forall f :: f in fns <==> Write(f, liability, Credit) in t.writes by {
      forall f | Write(f, liability, Credit) in t.writes ensures f in fns {
        var i :| 0 <= i < |credits| && credits[i] == Write(f, liability, Credit);
        assert fns[i] == f;
      }
      forall f | f in fns ensures Write(f, liability, Credit) in t.writes {
        var i :| 0 <= i < |fns| && fns[i] == f;
        assert credits[i] in credits && credits[i] == Write(f, liability, Credit);
      }
    }
    Unique(fns)
  }

  /** They are listed as their first credits are. */
  lemma CreditFnsInOrder(t: Table, liability: Name, i: nat, j: nat)
    requires i < j < |CreditFns(t, liability)|
    ensures var fns := CreditFns(t, liability);
            Before(t.writes, Write(fns[i], liability, Credit), Write(fns[j], liability, Credit))
  {
    var keep := (w: Write) => w.variable == liability && w.kind == Credit;
    var credits := Filter(t.writes, keep);
    var fns := MapSeq(credits, (w: Write) => w.fn);
    UniqueInOrder(fns);
    var f, g := CreditFns(t, liability)[i], CreditFns(t, liability)[j];
    assert Before(fns, f, g);
    var k :| 0 <= k < |fns| && fns[k] == f && g !in fns[..k];
    assert credits[k] in credits;
    forall m | 0 <= m < k
      ensures credits[..k][m] != Write(g, liability, Credit)
    {
      assert fns[..k][m] == credits[m].fn;
    }
    FilterBefore(t.writes, keep, Write(f, liability, Credit), Write(g, liability, Credit));
  }

  predicate DebitsBucket(t: Table, w: Write) {
    RoleOf(t.variables, w.variable) == Some(Bucket) && (w.kind == Debit || w.kind == Zero)
  }

  predicate CreditsCounter(t: Table, w: Write) {
    RoleOf(t.variables, w.variable) == Some(Counter) && w.kind == Credit
  }

  predicate DebitsCounter(t: Table, w: Write) {
    RoleOf(t.variables, w.variable) == Some(Counter) && w.kind == Debit
  }

  /** The function already keeps the bucket's free balance honest. */
  ghost predicate Tracks(t: Table, fn: Name, w: Write) {
    w in t.writes && w.fn == fn && (DebitsBucket(t, w) || CreditsCounter(t, w))
  }

  ghost predicate Releases(t: Table, fn: Name, w: Write) {
    w in t.writes && w.fn == fn && DebitsCounter(t, w)
  }

  /** Another function treats bucket money as free without subtracting this liability. */
  ghost predicate Allocates(t: Table, liability: Name, fn: Name, e: FreeBalance) {
    && e in t.freeBalance && e.fn != fn && liability !in e.subtracted
    && exists v :: v in t.variables && v.name in e.subtracted
  }

  /** The condition under which crediting `liability` in `fn` is reported. */
  ghost predicate Flagged(t: Table, liability: Name, fn: Name) {
    && (exists v :: v in t.variables && v.role == Bucket)
    && Write(fn, liability, Credit) in t.writes
    && (forall w :: !Tracks(t, fn, w))
    && ((exists w :: Releases(t, fn, w)) || (exists e :: Allocates(t, liability, fn, e)))
  }

  /** How many findings name this pair. */
  function Reports(findings: seq<Finding>, liability: Name, fn: Name): nat {
    if findings == [] then 0
    else Reports(findings[..|findings| - 1], liability, fn)
         + (if findings[|findings| - 1].liability == liability && findings[|findings| - 1].fn == fn then 1 else 0)
  }

  function Occurrences(names: seq<Name>, name: Name): nat {
    if names == [] then 0
    else Occurrences(names[..|names| - 1], name) + (if names[|names| - 1] == name then 1 else 0)
  }

  /** What the text of a finding says about its function. */
  ghost predicate WellFounded(t: Table, x: Finding) {
    && Flagged(t, x.liability, x.fn)
    && NamesOf(t, Bucket) != [] && x.bucket == NamesOf(t, Bucket)[0]
    && (forall n :: n in x.released <==> exists w :: Releases(t, x.fn, w) && w.variable == n)
    && (x.allocation.None? ==> forall e :: !Allocates(t, x.liability, x.fn, e))
    && (x.allocation.Some? ==> FirstAllocates(t, x.liability, x.fn, x.allocation.value))
    && Distinct(x.released)
  }

  /** The first place where another function allocates. */
  ghost predicate FirstAllocates(t: Table, liability: Name, fn: Name, e: FreeBalance) {
    exists k :: && 0 <= k < |t.freeBalance| && t.freeBalance[k] == e && Allocates(t, liability, fn, e)
                && forall m :: 0 <= m < k ==> !Allocates(t, liability, fn, t.freeBalance[m])
  }

  /** Findings about one liability come in the order of the first credits they are about. */
  ghost predicate CreditsInOrder(t: Table, x: Finding, y: Finding) {
    Before(t.writes, Write(x.fn, x.liability, Credit), Write(y.fn, y.liability, Credit))
  }

  /** The findings about the liability declared at each place, in the order of declaration. */
  ghost predicate Listed(t: Table, findings: seq<Finding>, places: seq<nat>) {
    && |places| == |findings|
    && (forall i :: 0 <= i < |places| ==>
          places[i] < |NamesOf(t, Liability)| && findings[i].liability == NamesOf(t, Liability)[places[i]])
    && (forall i, j :: 0 <= i < j < |places| ==>
          places[i] < places[j] || (places[i] == places[j] && CreditsInOrder(t, findings[i], findings[j])))
  }

  /** Nothing to report. */
  ghost predicate Silent(t: Table) {
    forall l, f :: l in NamesOf(t, Liability) ==> !Flagged(t, l, f)
  }

  /**
   * One finding per declared liability and crediting function that meets the condition, each backed by the
   * table, and nothing else.
   */
  method ScanLedgerSolvency(t: Table) returns (findings: seq<Finding>)
    ensures forall l, f :: Reports(findings, l, f)
                           == if Flagged(t, l, f) then Occurrences(NamesOf(t, Liability), l) else 0
    ensures forall x :: x in findings ==> WellFounded(t, x)
    ensures findings == [] <==> Silent(t)
    ensures exists places :: Listed(t, findings, places)
  {
    findings := [];
    ghost var places: seq<nat> := [];
    NoneListed(t);
    hide Listed, WellFounded;
    var buckets := NamesOf(t, Bucket);
    var liabilities := NamesOf(t, Liability);
    BucketsDeclared(t);
    forall l {
      OccurrencesPositive(liabilities, l);
    }
    if |buckets| == 0 || |liabilities| == 0 {
      return;
    }
    for i := 0 to |liabilities|
      invariant forall l, f :: Reports(findings, l, f)
                               == if Flagged(t, l, f) then Occurrences(liabilities[..i], l) else 0
      invariant forall x :: x in findings ==> WellFounded(t, x)
      invariant Listed(t, findings, places) && forall k :: 0 <= k < |places| ==> places[k] < i
    {
      var more := ScanLiability(t, buckets[0], liabilities[i]);
      forall l, f
        ensures Reports(findings + more, l, f)
                == if Flagged(t, l, f) then Occurrences(liabilities[..i + 1], l) else 0
      {
        ReportsAppend(findings, more, l, f);
        assert liabilities[..i + 1][..i] == liabilities[..i];
      }
      places := ListMore(t, findings, places, more, i);
      findings := findings + more;
    }
    assert liabilities[..|liabilities|] == liabilities;
    EmptyIffNoReports(findings);
  }

  lemma NoneListed(t: Table)
    ensures Listed(t, [], [])
  {
  }

  lemma ListMore(t: Table, findings: seq<Finding>, places: seq<nat>, more: seq<Finding>, i: nat) returns (all: seq<nat>)
    requires Listed(t, findings, places) && (forall k :: 0 <= k < |places| ==> places[k] < i)
    requires i < |NamesOf(t, Liability)| && forall x :: x in more ==> x.liability == NamesOf(t, Liability)[i]
    requires forall j, k :: 0 <= j < k < |more| ==> CreditsInOrder(t, more[j], more[k])
    ensures Listed(t, findings + more, all) && forall k :: 0 <= k < |all| ==> all[k] < i + 1
  {
    hide NamesOf, CreditsInOrder;
    all := places + seq(|more|, k => i);
    var longer := findings + more;
    forall j, k | 0 <= j < k < |all|
      ensures all[j] < all[k] || (all[j] == all[k] && CreditsInOrder(t, longer[j], longer[k]))
    {
      if j >= |places| {
        assert longer[j] == more[j - |places|] && longer[k] == more[k - |places|];
      }
    }
    forall k | 0 <= k < |all|
      ensures longer[k].liability == NamesOf(t, Liability)[all[k]]
    {
      assert k >= |places| ==> longer[k] == more[k - |places|] && longer[k] in more;
    }
  }

  lemma {:induction false} OccurrencesPositive(names: seq<Name>, name: Name)
    ensures Occurrences(names, name) > 0 <==> name in names
  {
    if names != [] {
      assert names == names[..|names| - 1] + [names[|names| - 1]];
      OccurrencesPositive(names[..|names| - 1], name);
    }
  }

  lemma EmptyIffNoReports(findings: seq<Finding>)
    ensures findings == [] <==> forall l, f :: Reports(findings, l, f) == 0
  {
    if findings != [] {
      var last := findings[|findings| - 1];
      assert Reports(findings, last.liability, last.fn) > 0;
    }
  }

  lemma FlaggedIsCredited(t: Table, liability: Name)
    ensures forall f :: Flagged(t, liability, f) ==> Write(f, liability, Credit) in t.writes
  {
  }

  /** The inner loop: the functions crediting one liability. */
  method ScanLiability(t: Table, bucket: Name, liability: Name) returns (findings: seq<Finding>)
    requires NamesOf(t, Bucket) != [] && bucket == NamesOf(t, Bucket)[0]
    ensures forall l, f :: Reports(findings, l, f) == if l == liability && Flagged(t, l, f) then 1 else 0
    ensures forall x :: x in findings ==> WellFounded(t, x) && x.liability == liability
    ensures forall i, j :: 0 <= i < j < |findings| ==> CreditsInOrder(t, findings[i], findings[j])
  {
    hide Flagged, NamesOf, WellFounded, RoleOf, CreditsInOrder;
    findings := [];
    var creditFns := CreditFns(t, liability);
    FlaggedIsCredited(t, liability);
    BucketsDeclared(t);
    for i := 0 to |creditFns|
      invariant forall l, f ::
          Reports(findings, l, f) == if l == liability && f in creditFns[..i] && Flagged(t, l, f) then 1 else 0
      invariant forall x :: x in findings ==> WellFounded(t, x) && x.liability == liability
      invariant forall x :: x in findings ==> x.fn in creditFns[..i]
      invariant forall j, k :: 0 <= j < k < |findings| ==> CreditsInOrder(t, findings[j], findings[k])
    {
      var fn := creditFns[i];
      var x := Inspect(t, bucket, liability, fn);
      assert creditFns[..i + 1] == creditFns[..i] + [fn];
      if x.Some? {
        forall l, f {
          ReportsAppend(findings, [x.value], l, f);
        }
        forall y | y in findings
          ensures CreditsInOrder(t, y, x.value)
        {
          var k :| 0 <= k < i && creditFns[k] == y.fn;
          CreditFnsInOrder(t, liability, k, i);
          OrderOfCredits(t, y, x.value);
        }
        findings := findings + [x.value];
      }
    }
    assert creditFns[..|creditFns|] == creditFns;
  }

  lemma OrderOfCredits(t: Table, x: Finding, y: Finding)
    requires x.liability == y.liability
    requires Before(t.writes, Write(x.fn, x.liability, Credit), Write(y.fn, x.liability, Credit))
    ensures CreditsInOrder(t, x, y)
  {
  }

  /** The free-balance expressions of other functions that subtract a state variable, but not what is owed here. */
  function AllocationMath(t: Table, liability: Name, fn: Name): seq<FreeBalance> {
    Filter(t.freeBalance, (e: FreeBalance) =>
      e.fn != fn && liability !in e.subtracted && exists v :: v in t.variables && v.name in e.subtracted)
  }

  lemma AllocationsAre(t: Table, liability: Name, fn: Name)
    ensures var es := AllocationMath(t, liability, fn);
            && (forall e :: e in es <==> Allocates(t, liability, fn, e))
            && (es != [] ==> FirstAllocates(t, liability, fn, es[0]))
  {
    var es := AllocationMath(t, liability, fn);
    if es != [] {
      var k := FilterFirst(t.freeBalance, (e: FreeBalance) =>
        e.fn != fn && liability !in e.subtracted && exists v :: v in t.variables && v.name in e.subtracted);
      assert es[0] in es;
    }
  }

  /** The loop body for one crediting function. */
  method Inspect(t: Table, bucket: Name, liability: Name, fn: Name) returns (x: Option<Finding>)
    requires NamesOf(t, Bucket) != [] && bucket == NamesOf(t, Bucket)[0]
    requires Write(fn, liability, Credit) in t.writes
    ensures x.Some? <==> Flagged(t, liability, fn)
    ensures x.Some? ==> x.value.liability == liability && x.value.fn == fn && WellFounded(t, x.value)
  {
    hide RoleOf, NamesOf, AllocationMath, Allocates, FirstAllocates;
    BucketsDeclared(t);
    var own := Filter(t.writes, (w: Write) => w.fn == fn);
    var debitsBucket := exists w :: w in own && DebitsBucket(t, w);
    var tracksAggregate := exists w :: w in own && CreditsCounter(t, w);
    if debitsBucket || tracksAggregate {
      ghost var w :| w in own && (DebitsBucket(t, w) || CreditsCounter(t, w));
      assert Tracks(t, fn, w);
      return None;
    }
    var releases := Filter(own, (w: Write) => DebitsCounter(t, w));
    assert forall w :: w in releases <==> Releases(t, fn, w);
    var releasedCounters := Unique(MapSeq(releases, (w: Write) => w.variable));
    ReleasedNames(releases, releasedCounters);
    var allocationMath := AllocationMath(t, liability, fn);
    AllocationsAre(t, liability, fn);
    if |releasedCounters| == 0 && |allocationMath| == 0 {
      assert releases == [];
      return None;
    }
    if |releases| > 0 {
      assert Releases(t, fn, releases[0]);
    } else {
      assert Allocates(t, liability, fn, allocationMath[0]);
    }
    x := Some(Finding(liability, fn, bucket, releasedCounters,
                      if |allocationMath| > 0 then Some(allocationMath[0]) else None));
  }

  lemma ReleasedNames(releases: seq<Write>, names: seq<Name>)
    requires names == Unique(MapSeq(releases, (w: Write) => w.variable))
    ensures names == [] <==> releases == []
    ensures forall n :: n in names <==> exists w :: w in releases && w.variable == n
  {
    var all := MapSeq(releases, (w: Write) => w.variable);
    forall w | w in releases ensures w.variable in names {
      var i :| 0 <= i < |releases| && releases[i] == w;
      assert all[i] == w.variable;
    }
    if releases != [] {
      assert releases[0].variable in names;
    }
  }

  lemma BucketsDeclared(t: Table)
    ensures NamesOf(t, Bucket) != [] <==> exists v :: v in t.variables && v.role == Bucket
  {
    var declared := Filter(t.variables, (v: Variable) => v.role == Bucket);
    if v :| v in t.variables && v.role == Bucket {
      assert v in declared;
    }
    if declared != [] {
      assert declared[0] in declared;
    }
  }

  lemma {:induction false} ReportsAppend(a: seq<Finding>, b: seq<Finding>, liability: Name, fn: Name)
    ensures Reports(a + b, liability, fn) == Reports(a, liability, fn) + Reports(b, liability, fn)
    decreases |b|
  {
    if b == [] {
      assert a + b == a;
    } else {
      assert (a + b)[..|a + b| - 1] == a + b[..|b| - 1];
      ReportsAppend(a, b[..|b| - 1], liability, fn);
    }
  }

  // ---- How edits move the verdict ----

  ghost predicate Inserted(t: Table, u: Table, w: Write) {
    && u.variables == t.variables && u.freeBalance == t.freeBalance
    && exists i :: 0 <= i <= |t.writes| && u.writes == t.writes[..i] + [w] + t.writes[i..]
  }

  lemma InsertedMembers(t: Table, u: Table, w: Write)
    requires Inserted(t, u, w)
    ensures forall x :: x in u.writes <==> x == w || x in t.writes
  {
    var i :| 0 <= i <= |t.writes| && u.writes == t.writes[..i] + [w] + t.writes[i..];
    assert t.writes == t.writes[..i] + t.writes[i..];
  }

  /**
   * Adding either remedy to a function, wherever in the table, clears exactly that function: a bucket debit
   * or reset, or a counter credit.
   */
  lemma RemedyClearsOnlyItsFunction(t: Table, u: Table, w: Write, liability: Name, fn: Name)
    requires Inserted(t, u, w)
    requires DebitsBucket(t, w) || CreditsCounter(t, w)
    ensures Flagged(u, liability, fn) <==> fn != w.fn && Flagged(t, liability, fn)
  {
    InsertedMembers(t, u, w);
    if fn == w.fn {
      assert Tracks(u, fn, w);
    } else {
      assert forall x :: Tracks(u, fn, x) <==> Tracks(t, fn, x);
      assert forall x :: Releases(u, fn, x) <==> Releases(t, fn, x);
      assert forall e :: Allocates(u, liability, fn, e) <==> Allocates(t, liability, fn, e);
    }
  }

  /** Releasing a counter is never a remedy: it removes no finding and touches no other function. */
  lemma CounterDebitNeverClears(t: Table, u: Table, w: Write, liability: Name, fn: Name)
    requires Inserted(t, u, w)
    requires DebitsCounter(t, w)
    ensures Flagged(t, liability, fn) ==> Flagged(u, liability, fn)
    ensures fn != w.fn ==> (Flagged(u, liability, fn) <==> Flagged(t, liability, fn))
    ensures Flagged(u, liability, w.fn) <==>
            && (exists v :: v in t.variables && v.role == Bucket)
            && Write(w.fn, liability, Credit) in t.writes
            && (forall x :: !Tracks(t, w.fn, x))
  {
    InsertedMembers(t, u, w);
    assert forall x :: Tracks(u, fn, x) <==> Tracks(t, fn, x);
    assert forall x :: Tracks(u, w.fn, x) <==> Tracks(t, w.fn, x);
    assert forall e :: Allocates(u, liability, fn, e) <==> Allocates(t, liability, fn, e);
    assert Releases(u, w.fn, w);
    forall x | Releases(t, fn, x) ensures Releases(u, fn, x) {
    }
    if fn != w.fn {
      assert forall x :: Releases(u, fn, x) <==> Releases(t, fn, x);
    }
  }
}
