/** What each request does to the pending nonces, entry by entry. */
module NonceTerms {
  import opened Wrappers
  import opened NonceStore

  // ---- Kept entries ----

  ghost predicate Increasing(places: seq<nat>) {
    forall i, j :: 0 <= i < j < |places| ==> places[i] < places[j]
  }

  /** The entries at these places, in the same order. */
  ghost predicate Selected(all: seq<Pending>, kept: seq<Pending>, places: seq<nat>) {
    && |places| == |kept| && Increasing(places)
    && forall k :: 0 <= k < |places| ==> places[k] < |all| && kept[k] == all[places[k]]
  }

  lemma OneMoreSelected(all: seq<Pending>, kept: seq<Pending>, places: seq<nat>, last: Pending)
    requires Selected(all, kept, places)
    ensures Selected(all + [last], kept, places)
    ensures Selected(all + [last], kept + [last], places + [|all|])
  {
    assert (all + [last])[|all|] == last;
  }

  ghost predicate Alone(all: seq<Pending>, places: seq<nat>, now: nat) {
    forall i :: 0 <= i < |all| ==> (i in places <==> all[i].expiresAt > now)
  }

  lemma {:induction false} AlivePlaces(all: seq<Pending>, now: nat) returns (places: seq<nat>)
    ensures Selected(all, Alive(all, now), places) && Alone(all, places, now)
  {
    hide Increasing;
    if all == [] {
      places := [];
      NoneIncreasing();
    } else {
      var front, last := all[..|all| - 1], all[|all| - 1];
      assert all == front + [last];
      var rest := AlivePlaces(front, now);
      OneMoreSelected(front, Alive(front, now), rest, last);
      places := if last.expiresAt <= now then rest else rest + [|front|];
      AloneLonger(front, rest, last, now);
    }
  }

  lemma NoneIncreasing()
    ensures Increasing([])
  {
  }

  lemma AloneLonger(front: seq<Pending>, rest: seq<nat>, last: Pending, now: nat)
    requires Alone(front, rest, now) && forall k :: 0 <= k < |rest| ==> rest[k] < |front|
    ensures Alone(front + [last], if last.expiresAt <= now then rest else rest + [|front|], now)
  {
  }

  lemma {:induction false} OtherPlaces(all: seq<Pending>, nonce: Nonce) returns (places: seq<nat>)
    ensures Selected(all, Without(all, nonce), places)
    ensures forall i :: 0 <= i < |all| ==> (i in places <==> all[i].nonce != nonce)
  {
    hide Increasing;
    if all == [] {
      places := [];
      NoneIncreasing();
    } else {
      var front, last := all[..|all| - 1], all[|all| - 1];
      assert all == front + [last];
      var rest := OtherPlaces(front, nonce);
      OneMoreSelected(front, Without(front, nonce), rest, last);
      places := if last.nonce == nonce then rest else rest + [|front|];
    }
  }

  // ---- Eviction ----

  /** The entries behind this one that have not expired. */
  function Later(all: seq<Pending>, i: nat, now: nat): set<nat> {
    set k: nat | i < k < |all| && all[k].expiresAt > now
  }

  function Range(places: seq<nat>): set<nat> {
    set k | k in places
  }

  lemma {:induction false} RangeSize(places: seq<nat>)
    requires Increasing(places)
    ensures |Range(places)| == |places|
  {
    hide Range;
    if places == [] {
      NoRange();
    } else {
      RangeSize(places[..|places| - 1]);
      LastInRange(places);
    }
  }

  lemma NoRange()
    ensures Range([]) == {}
  {
  }

  lemma LastInRange(places: seq<nat>)
    requires Increasing(places) && places != []
    ensures var front, last := places[..|places| - 1], places[|places| - 1];
            Increasing(front) && last !in Range(front) && Range(places) == Range(front) + {last}
  {
    var front, last := places[..|places| - 1], places[|places| - 1];
    assert places == front + [last];
  }

  lemma LaterIs(all: seq<Pending>, places: seq<nat>, now: nat, k: nat)
    requires Increasing(places) && Alone(all, places, now) && k < |places|
    requires forall j :: 0 <= j < |places| ==> places[j] < |all|
    ensures |Later(all, places[k], now)| == |places| - k - 1
  {
    var behind := places[k + 1..];
    RangeSize(behind);
    forall i | i in Later(all, places[k], now)
      ensures i in behind
    {
      assert i in places;
      var j :| 0 <= j < |places| && places[j] == i;
      assert j > k;
      assert behind[j - k - 1] == i;
    }
    forall i | i in behind
      ensures i in Later(all, places[k], now)
    {
      var j :| 0 <= j < |behind| && behind[j] == i;
      assert places[j + k + 1] == i;
    }
    assert Range(behind) == Later(all, places[k], now);
  }

  /** An entry stays exactly when it has not expired and fewer than 9,999 live entries follow it. */
  lemma PrunedIs(all: seq<Pending>, now: nat) returns (places: seq<nat>)
    ensures Selected(all, Pruned(all, now), places)
    ensures forall i: nat :: i < |all| ==>
                          (i in places <==> all[i].expiresAt > now && |Later(all, i, now)| < 9_999)
  {
    hide Later, Alone, Alive;
    var live := AlivePlaces(all, now);
    var from := if |live| < 10_000 then 0 else |live| - 9_999;
    places := live[from..];
    forall k: nat | k < |live|
      ensures |Later(all, live[k], now)| == |live| - k - 1
    {
      LaterIs(all, live, now, k);
    }
    forall i: nat | i < |all|
      ensures i in places <==> all[i].expiresAt > now && |Later(all, i, now)| < 9_999
    {
      KeptIff(all, live, now, from, i);
    }
  }

  lemma KeptIff(all: seq<Pending>, live: seq<nat>, now: nat, from: nat, i: nat)
    requires Increasing(live) && Alone(all, live, now) && i < |all| && from <= |live|
    requires from == if |live| < 10_000 then 0 else |live| - 9_999
    requires forall k :: 0 <= k < |live| ==> |Later(all, live[k], now)| == |live| - k - 1
    ensures i in live[from..] <==> all[i].expiresAt > now && |Later(all, i, now)| < 9_999
  {
    hide Later;
    if i in live {
      var k :| 0 <= k < |live| && live[k] == i;
      if k >= from {
        assert live[from..][k - from] == i;
      }
      if i in live[from..] {
        var j :| 0 <= j < |live[from..]| && live[from..][j] == i;
        assert live[from + j] == live[k];
      }
    }
  }

  // ---- Requests ----

  /**
   * Issuing drops the expired entries and, of the rest, all but the newest 9,999; the new nonce comes last, for five
   * minutes.
   */
  lemma IssueIs(log: seq<Step>, step: Step) returns (kept: seq<Pending>, places: seq<nat>)
    requires step.Issue? && WellTimed(log + [step])
    ensures var before, after := After(log), After(log + [step]);
            && Selected(before.pending, kept, places)
            && (forall i: nat :: i < |before.pending| ==>
                  (i in places
                   <==> && before.pending[i].expiresAt > step.now
                        && |Later(before.pending, i, step.now)| < 9_999))
            && after.pending == kept + [Pending(step.nonce, step.wallet, step.now + 300_000)]
            && after.checks == before.checks
  {
    hide Later, Selected, WellTimed, Pruned;
    assert (log + [step])[..|log|] == log;
    TimedPrefix(log, [step]);
    EveryRunIsSound(log);
    IssueKeepsSound(log, After(log), step);
    kept := Pruned(After(log).pending, step.now);
    places := PrunedIs(After(log).pending, step.now);
  }

  /** A sign-in consumes its nonce, whatever comes of it, and is checked for the right wallet in time. */
  lemma VerifyIs(log: seq<Step>, step: Step) returns (places: seq<nat>)
    requires step.Verify? && WellTimed(log + [step])
    ensures var before, after := After(log), After(log + [step]);
            && Selected(before.pending, after.pending, places)
            && (forall i :: 0 <= i < |before.pending| ==> (i in places <==> before.pending[i].nonce != step.nonce))
            && after.checks
               == before.checks
                  + if exists e :: && e in before.pending && e.nonce == step.nonce && e.wallet == step.wallet
                                   && step.now < e.expiresAt
                    then [Check(step.nonce, step.wallet, step.now)] else []
  {
    hide Selected, WellTimed, Without, Lookup;
    assert (log + [step])[..|log|] == log;
    TimedPrefix(log, [step]);
    EveryRunIsSound(log);
    var pending := After(log).pending;
    places := OtherPlaces(pending, step.nonce);
    LookupIs(pending, step.nonce);
  }

  lemma LookupIs(pending: seq<Pending>, nonce: Nonce)
    requires Ordered(pending)
    ensures forall e :: e in pending && e.nonce == nonce <==> Lookup(pending, nonce) == Some(e)
  {
    hide Lookup;
    LookupFinds(pending, nonce);
    forall e | e in pending && e.nonce == nonce
      ensures Lookup(pending, nonce) == Some(e)
    {
      var i :| 0 <= i < |pending| && pending[i] == e;
      assert Has(pending, nonce);
      var d := Lookup(pending, nonce).value;
      var j :| 0 <= j < |pending| && pending[j] == d;
    }
  }

  /** A nonce drawn twice takes the place of the pending one, as a key set again does. */
  lemma DrawnAgain(pending: seq<Pending>, e: Pending)
    ensures (forall d :: d in pending ==> d.nonce != e.nonce) ==> Put(pending, e) == pending + [e]
    ensures (exists d :: d in pending && d.nonce == e.nonce) ==>
              && |Put(pending, e)| == |pending|
              && forall i :: 0 <= i < |pending| ==>
                               Put(pending, e)[i] == if pending[i].nonce == e.nonce then e else pending[i]
  {
    if d :| d in pending && d.nonce == e.nonce {
      var i :| 0 <= i < |pending| && pending[i] == d;
      assert Has(pending, e.nonce);
    }
  }
}
