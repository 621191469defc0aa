/** Pending sign-in nonces: bounded, single-use, short-lived. */
module NonceStore {
  import opened Wrappers

  const NONCE_TTL_MS: nat := 300_000
  const MAX_PENDING_NONCES: nat := 10_000

  type Nonce = nat
  /** A wallet address in lower case. */
  type Wallet = nat
  type Signature = nat

  datatype Pending = Pending(nonce: Nonce, wallet: Wallet, expiresAt: nat)

  /** A signature check that was actually reached. */
  datatype Check = Check(nonce: Nonce, wallet: Wallet, now: nat)

  datatype Step = Issue(wallet: Wallet, nonce: Nonce, now: nat)
                | Verify(wallet: Wallet, nonce: Nonce, now: nat)

  // ---- The ordered map ----

  predicate Has(pending: seq<Pending>, nonce: Nonce) {
    exists i :: 0 <= i < |pending| && pending[i].nonce == nonce
  }

  function Alive(pending: seq<Pending>, now: nat): seq<Pending> {
    if pending == [] then []
    else
      var last := pending[|pending| - 1];
      Alive(pending[..|pending| - 1], now) + (if last.expiresAt <= now then [] else [last])
  }

  /** Expired entries go first; if the cap is still reached, the oldest go until one slot is free. */
  function Pruned(pending: seq<Pending>, now: nat): seq<Pending> {
    var alive := Alive(pending, now);
    if |alive| < MAX_PENDING_NONCES then alive else alive[|alive| - (MAX_PENDING_NONCES - 1)..]
  }

  function Without(pending: seq<Pending>, nonce: Nonce): seq<Pending> {
    if pending == [] then []
    else
      var last := pending[|pending| - 1];
      Without(pending[..|pending| - 1], nonce) + (if last.nonce == nonce then [] else [last])
  }

  function Lookup(pending: seq<Pending>, nonce: Nonce): Option<Pending> {
    if pending == [] then None
    else if pending[|pending| - 1].nonce == nonce then Some(pending[|pending| - 1])
    else Lookup(pending[..|pending| - 1], nonce)
  }

  /** Setting a known key keeps its position; a new key goes last. */
  function Put(pending: seq<Pending>, e: Pending): seq<Pending> {
    if !Has(pending, e.nonce) then pending + [e]
    else seq(|pending|, i requires 0 <= i < |pending| => if pending[i].nonce == e.nonce then e else pending[i])
  }

  // ---- Specification ----

  datatype State = State(pending: seq<Pending>, checks: seq<Check>)

  function Reaches(pending: seq<Pending>, wallet: Wallet, nonce: Nonce, now: nat): bool {
    var entry := Lookup(pending, nonce);
    entry.Some? && now < entry.value.expiresAt && entry.value.wallet == wallet
  }

  function Apply(s: State, step: Step): State {
    match step
    case Issue(wallet, nonce, now) =>
      s.(pending := Put(Pruned(s.pending, now), Pending(nonce, wallet, now + NONCE_TTL_MS)))
    case Verify(wallet, nonce, now) =>
      State(Without(s.pending, nonce),
            if Reaches(s.pending, wallet, nonce, now) then s.checks + [Check(nonce, wallet, now)] else s.checks)
  }

  // ---- Implementation ----

  class Store {
    var pending: seq<Pending>
    var checks: seq<Check>

    constructor ()
      ensures pending == [] && checks == []
    {
      pending, checks := [], [];
    }

    method PrunePendingNonces(now: nat)
      modifies `pending
      ensures pending == Pruned(old(pending), now)
    {
      var kept: seq<Pending> := [];
      for i := 0 to |pending|
        modifies {}
        invariant kept == Alive(pending[..i], now)
      {
        assert pending[..i + 1][..i] == pending[..i];
        if pending[i].expiresAt > now {
          kept := kept + [pending[i]];
        }
      }
      assert pending[..|pending|] == pending;
      pending := kept;
      while |pending| >= MAX_PENDING_NONCES
        invariant |pending| <= |kept| && pending == kept[|kept| - |pending|..]
        invariant |pending| == |kept| || |pending| >= MAX_PENDING_NONCES - 1
      {
        pending := pending[1..];
      }
    }

    /** `nonce` is the random draw. */
    method IssueNonce(wallet: Wallet, nonce: Nonce, now: nat)
      modifies this
      ensures State(pending, checks) == Apply(old(State(pending, checks)), Issue(wallet, nonce, now))
    {
      PrunePendingNonces(now);
      pending := Put(pending, Pending(nonce, wallet, now + NONCE_TTL_MS));
    }

    /** The nonce is consumed first, whatever the outcome. */
    method VerifySignIn(wallet: Wallet, nonce: Nonce, signature: Signature, now: nat,
                        verify: (Wallet, Nonce, Signature) -> bool) returns (accepted: bool)
      modifies this
      ensures State(pending, checks) == Apply(old(State(pending, checks)), Verify(wallet, nonce, now))
      ensures accepted <==> old(Reaches(pending, wallet, nonce, now)) && verify(wallet, nonce, signature)
    {
      var entry := Lookup(pending, nonce);
      pending := Without(pending, nonce);
      if entry.None? || entry.value.expiresAt <= now || entry.value.wallet != wallet {
        return false;
      }
      checks := checks + [Check(nonce, wallet, now)];
      accepted := verify(wallet, nonce, signature);
    }
  }

  // ---- Every run with a monotone clock and fresh nonces ----

  /** The log never goes back in time and never draws a nonce twice. */
  ghost predicate WellTimed(log: seq<Step>) {
    && (forall i, j :: 0 <= i < j < |log| ==> log[i].now <= log[j].now)
    && (forall i, j :: 0 <= i < j < |log| && log[i].Issue? && log[j].Issue? ==> log[i].nonce != log[j].nonce)
  }

  function After(log: seq<Step>): State {
    if log == [] then State([], []) else Apply(After(log[..|log| - 1]), log[|log| - 1])
  }

  ghost predicate WasIssued(log: seq<Step>, nonce: Nonce, wallet: Wallet, expiresAt: nat) {
    exists i :: 0 <= i < |log| && log[i].Issue? && log[i].nonce == nonce && log[i].wallet == wallet
                && log[i].now + NONCE_TTL_MS == expiresAt
  }

  /** Earliest expiry first, no nonce twice. */
  ghost predicate Ordered(pending: seq<Pending>) {
    forall i, j :: 0 <= i < j < |pending| ==>
                     pending[i].expiresAt <= pending[j].expiresAt && pending[i].nonce != pending[j].nonce
  }

  /** Each check was of a nonce issued to that wallet and not yet expired. */
  ghost predicate ChecksInTime(log: seq<Step>, checks: seq<Check>) {
    forall i :: 0 <= i < |checks| ==> CheckInTime(log, checks[i])
  }

  ghost predicate CheckInTime(log: seq<Step>, c: Check) {
    exists expiresAt :: WasIssued(log, c.nonce, c.wallet, expiresAt) && c.now < expiresAt
  }

  /** A checked nonce is no longer pending, and no nonce is checked twice. */
  ghost predicate ChecksOnce(pending: seq<Pending>, checks: seq<Check>) {
    && (forall i, j :: 0 <= i < j < |checks| ==> checks[i].nonce != checks[j].nonce)
    && (forall i, j :: 0 <= i < |checks| && 0 <= j < |pending| ==> checks[i].nonce != pending[j].nonce)
  }

  ghost predicate PendingIssued(log: seq<Step>, pending: seq<Pending>) {
    forall i :: 0 <= i < |pending| ==> WasIssued(log, pending[i].nonce, pending[i].wallet, pending[i].expiresAt)
  }

  ghost predicate Sound(log: seq<Step>, s: State) {
    && |s.pending| <= MAX_PENDING_NONCES && Ordered(s.pending) && PendingIssued(log, s.pending)
    && ChecksInTime(log, s.checks) && ChecksOnce(s.pending, s.checks)
  }

  lemma {:induction false} AliveKeepsOrder(pending: seq<Pending>, now: nat)
    requires Ordered(pending)
    ensures Ordered(Alive(pending, now)) && |Alive(pending, now)| <= |pending|
    ensures forall e :: e in Alive(pending, now) <==> e in pending && e.expiresAt > now
  {
    if pending != [] {
      AliveKeepsOrder(pending[..|pending| - 1], now);
    }
  }

  lemma {:induction false} WithoutKeepsOrder(pending: seq<Pending>, nonce: Nonce)
    requires Ordered(pending)
    ensures Ordered(Without(pending, nonce)) && |Without(pending, nonce)| <= |pending|
    ensures forall e :: e in Without(pending, nonce) <==> e in pending && e.nonce != nonce
  {
    if pending != [] {
      WithoutKeepsOrder(pending[..|pending| - 1], nonce);
    }
  }

  lemma {:induction false} LookupFinds(pending: seq<Pending>, nonce: Nonce)
    ensures Lookup(pending, nonce).Some? ==> Lookup(pending, nonce).value in pending
                                             && Lookup(pending, nonce).value.nonce == nonce
    ensures Has(pending, nonce) ==> Lookup(pending, nonce).Some?
  {
    if pending != [] && pending[|pending| - 1].nonce != nonce {
      var rest := pending[..|pending| - 1];
      LookupFinds(rest, nonce);
      if Has(pending, nonce) {
        var i :| 0 <= i < |pending| && pending[i].nonce == nonce;
        assert rest[i].nonce == nonce;
      }
    }
  }

  /** Pruning frees a slot, drops no live entry below the cap, and otherwise drops those that expire first. */
  lemma EvictionDropsEarliest(pending: seq<Pending>, now: nat)
    requires Ordered(pending)
    ensures var alive, pruned := Alive(pending, now), Pruned(pending, now);
            && Ordered(pruned) && |pruned| < MAX_PENDING_NONCES
            && (|alive| < MAX_PENDING_NONCES ==> pruned == alive)
            && (|alive| >= MAX_PENDING_NONCES ==> |pruned| == MAX_PENDING_NONCES - 1)
            && (forall e :: e in pruned ==> e in pending && e.expiresAt > now)
            && (forall gone, kept :: gone in alive && gone !in pruned && kept in pruned ==>
                                       gone.expiresAt <= kept.expiresAt)
  {
    hide Alive;
    var alive := Alive(pending, now);
    AliveKeepsOrder(pending, now);
    SuffixIsNewest(alive, if |alive| < MAX_PENDING_NONCES then 0 else |alive| - (MAX_PENDING_NONCES - 1));
  }

  lemma SuffixIsNewest(pending: seq<Pending>, dropped: nat)
    requires Ordered(pending) && dropped <= |pending|
    ensures var kept := pending[dropped..];
            && Ordered(kept)
            && (forall e :: e in kept ==> e in pending)
            && (forall gone, e :: gone in pending && gone !in kept && e in kept ==> gone.expiresAt <= e.expiresAt)
  {
    var kept := pending[dropped..];
    assert forall i :: dropped <= i < |pending| ==> pending[i] == kept[i - dropped];
    forall gone, e | gone in pending && gone !in kept && e in kept
      ensures gone.expiresAt <= e.expiresAt
    {
      var i :| 0 <= i < |pending| && pending[i] == gone;
      var j :| 0 <= j < |kept| && kept[j] == e;
      assert kept[j] == pending[j + dropped];
    }
  }

  lemma IssuedStays(log: seq<Step>, step: Step, s: State)
    requires PendingIssued(log, s.pending) && ChecksInTime(log, s.checks)
    ensures PendingIssued(log + [step], s.pending) && ChecksInTime(log + [step], s.checks)
  {
    forall nonce, wallet, expiresAt | WasIssued(log, nonce, wallet, expiresAt)
      ensures WasIssued(log + [step], nonce, wallet, expiresAt)
    {
      var i :| 0 <= i < |log| && log[i].Issue? && log[i].nonce == nonce && log[i].wallet == wallet
               && log[i].now + NONCE_TTL_MS == expiresAt;
      assert (log + [step])[i] == log[i];
    }
    forall i | 0 <= i < |s.checks|
      ensures CheckInTime(log + [step], s.checks[i])
    {
      assert CheckInTime(log, s.checks[i]);
      var c := s.checks[i];
      var expiresAt :| WasIssued(log, c.nonce, c.wallet, expiresAt) && c.now < expiresAt;
      assert WasIssued(log + [step], c.nonce, c.wallet, expiresAt);
    }
  }

  /** A fresh nonce is newer than everything pending and was never checked. */
  lemma IssueIsNew(log: seq<Step>, s: State, step: Step)
    requires step.Issue? && WellTimed(log + [step]) && PendingIssued(log, s.pending) && ChecksInTime(log, s.checks)
    ensures forall k :: k in s.pending ==>
                          k.nonce != step.nonce && k.expiresAt <= step.now + NONCE_TTL_MS
    ensures forall i :: 0 <= i < |s.checks| ==> s.checks[i].nonce != step.nonce
  {
    hide WellTimed, WasIssued;
    forall k | k in s.pending
      ensures k.nonce != step.nonce && k.expiresAt <= step.now + NONCE_TTL_MS
    {
      var i :| 0 <= i < |s.pending| && s.pending[i] == k;
      EarlierIssue(log, step, k.nonce, k.wallet, k.expiresAt);
    }
    forall i | 0 <= i < |s.checks|
      ensures s.checks[i].nonce != step.nonce
    {
      assert CheckInTime(log, s.checks[i]);
      var expiresAt :| WasIssued(log, s.checks[i].nonce, s.checks[i].wallet, expiresAt);
      EarlierIssue(log, step, s.checks[i].nonce, s.checks[i].wallet, expiresAt);
    }
  }

  lemma IssueKeepsSound(log: seq<Step>, s: State, step: Step)
    requires step.Issue? && WellTimed(log + [step]) && Sound(log, s)
    ensures Sound(log + [step], Apply(s, step))
    ensures Apply(s, step).pending == Pruned(s.pending, step.now)
                                      + [Pending(step.nonce, step.wallet, step.now + NONCE_TTL_MS)]
  {
    hide WellTimed, WasIssued, ChecksInTime, PendingIssued, Pruned, Alive;
    var longer, e := log + [step], Pending(step.nonce, step.wallet, step.now + NONCE_TTL_MS);
    var pruned := Pruned(s.pending, step.now);
    EvictionDropsEarliest(s.pending, step.now);
    IssueIsNew(log, s, step);
    assert !Has(pruned, e.nonce);
    IssuedStays(log, step, s);
    PrunedPartly(longer, s, pruned);
    IssuedLast(log, step, pruned, e);
    OrderedLast(pruned, e);
    ChecksOnceLast(pruned, s.checks, e);
  }

  lemma IssuedLast(log: seq<Step>, step: Step, pending: seq<Pending>, e: Pending)
    requires PendingIssued(log + [step], pending) && step.Issue?
    requires e == Pending(step.nonce, step.wallet, step.now + NONCE_TTL_MS)
    ensures PendingIssued(log + [step], pending + [e])
  {
    assert (log + [step])[|log|] == step;
  }

  lemma OrderedLast(pending: seq<Pending>, e: Pending)
    requires Ordered(pending) && forall k :: k in pending ==> k.nonce != e.nonce && k.expiresAt <= e.expiresAt
    ensures Ordered(pending + [e])
  {
    assert forall i :: 0 <= i < |pending| ==> pending[i] in pending;
  }

  lemma ChecksOnceLast(pending: seq<Pending>, checks: seq<Check>, e: Pending)
    requires ChecksOnce(pending, checks) && forall i :: 0 <= i < |checks| ==> checks[i].nonce != e.nonce
    ensures ChecksOnce(pending + [e], checks)
  {
  }

  lemma PrunedPartly(log: seq<Step>, s: State, fewer: seq<Pending>)
    requires PendingIssued(log, s.pending) && ChecksOnce(s.pending, s.checks)
    requires forall e :: e in fewer ==> e in s.pending
    ensures PendingIssued(log, fewer) && ChecksOnce(fewer, s.checks)
  {
    forall j | 0 <= j < |fewer|
      ensures WasIssued(log, fewer[j].nonce, fewer[j].wallet, fewer[j].expiresAt)
      ensures forall i :: 0 <= i < |s.checks| ==> s.checks[i].nonce != fewer[j].nonce
    {
      assert fewer[j] in s.pending;
      var k :| 0 <= k < |s.pending| && s.pending[k] == fewer[j];
    }
  }

  lemma EarlierIssue(log: seq<Step>, step: Step, nonce: Nonce, wallet: Wallet, expiresAt: nat)
    requires step.Issue? && WellTimed(log + [step]) && WasIssued(log, nonce, wallet, expiresAt)
    ensures nonce != step.nonce && expiresAt <= step.now + NONCE_TTL_MS
  {
    var longer := log + [step];
    var i :| 0 <= i < |log| && log[i].Issue? && log[i].nonce == nonce && log[i].wallet == wallet
             && log[i].now + NONCE_TTL_MS == expiresAt;
    assert longer[i] == log[i] && longer[|log|] == step;
  }

  lemma VerifyKeepsSound(log: seq<Step>, s: State, step: Step)
    requires step.Verify? && Sound(log, s)
    ensures Sound(log + [step], Apply(s, step))
  {
    hide WasIssued, Reaches, Without, Lookup;
    var t := Apply(s, step);
    WithoutKeepsOrder(s.pending, step.nonce);
    IssuedStays(log, step, s);
    PrunedPartly(log + [step], s, t.pending);
    if Reaches(s.pending, step.wallet, step.nonce, step.now) {
      CheckIsSound(log + [step], s, step);
    }
  }

  lemma CheckIsSound(log: seq<Step>, s: State, step: Step)
    requires step.Verify? && Ordered(s.pending) && PendingIssued(log, s.pending)
    requires ChecksInTime(log, s.checks) && ChecksOnce(s.pending, s.checks)
    requires Reaches(s.pending, step.wallet, step.nonce, step.now)
    ensures var checks := s.checks + [Check(step.nonce, step.wallet, step.now)];
            ChecksInTime(log, checks) && ChecksOnce(Without(s.pending, step.nonce), checks)
  {
    hide WasIssued, Without, Lookup;
    var left := Without(s.pending, step.nonce);
    WithoutKeepsOrder(s.pending, step.nonce);
    LookupFinds(s.pending, step.nonce);
    var entry := Lookup(s.pending, step.nonce).value;
    var k :| 0 <= k < |s.pending| && s.pending[k] == entry;
    assert WasIssued(log, step.nonce, step.wallet, entry.expiresAt);
    assert CheckInTime(log, Check(step.nonce, step.wallet, step.now));
    PrunedPartly(log, s, left);
    assert forall j :: 0 <= j < |left| ==> left[j] in left;
  }

  /**
   * At most 10,000 nonces are pending, ordered by expiry; each nonce reaches a signature check at most once,
   * only for the wallet it was issued to, and never after it expired.
   */
  lemma {:induction false} EveryRunIsSound(log: seq<Step>)
    requires WellTimed(log)
    ensures Sound(log, After(log))
  {
    hide Sound, Apply;
    if log == [] {
      EmptyIsSound();
    } else {
      var rest, step := log[..|log| - 1], log[|log| - 1];
      assert log == rest + [step];
      EveryRunIsSound(rest);
      if step.Issue? {
        IssueKeepsSound(rest, After(rest), step);
      } else {
        VerifyKeepsSound(rest, After(rest), step);
      }
    }
  }

  lemma EmptyIsSound()
    ensures Sound([], State([], []))
  {
  }

  // ---- A fresh nonce can be used ----

  /** The entry is among the `k` newest. */
  predicate Among(pending: seq<Pending>, e: Pending, k: nat) {
    pending != [] && k > 0
    && (pending[|pending| - 1] == e || Among(pending[..|pending| - 1], e, k - 1))
  }

  lemma {:induction false} AmongAlive(pending: seq<Pending>, e: Pending, k: nat, now: nat)
    requires Among(pending, e, k) && e.expiresAt > now
    ensures Among(Alive(pending, now), e, k)
  {
    var rest, last := pending[..|pending| - 1], pending[|pending| - 1];
    if last == e {
      var alive := Alive(rest, now);
      assert (alive + [e])[|alive|] == e;
    } else {
      AmongAlive(rest, e, k - 1, now);
      if last.expiresAt <= now {
        AmongMore(Alive(rest, now), e, k - 1);
        assert Alive(pending, now) == Alive(rest, now);
      } else {
        AmongLonger(Alive(rest, now), e, k - 1, last);
      }
    }
  }

  lemma {:induction false} AmongMore(pending: seq<Pending>, e: Pending, k: nat)
    requires Among(pending, e, k)
    ensures Among(pending, e, k + 1)
  {
    if pending[|pending| - 1] != e {
      AmongMore(pending[..|pending| - 1], e, k - 1);
    }
  }

  lemma AmongLonger(pending: seq<Pending>, e: Pending, k: nat, last: Pending)
    requires Among(pending, e, k)
    ensures Among(pending + [last], e, k + 1)
  {
    assert (pending + [last])[..|pending|] == pending;
  }

  lemma {:induction false} AmongSuffix(pending: seq<Pending>, e: Pending, k: nat, size: nat)
    requires Among(pending, e, k) && k <= size <= |pending|
    ensures Among(pending[|pending| - size..], e, k)
  {
    var suffix := pending[|pending| - size..];
    var rest := pending[..|pending| - 1];
    if pending[|pending| - 1] != e {
      AmongSuffix(rest, e, k - 1, size - 1);
      assert suffix[..size - 1] == rest[|rest| - (size - 1)..];
    }
  }

  lemma {:induction false} AmongWithout(pending: seq<Pending>, e: Pending, k: nat, nonce: Nonce)
    requires Among(pending, e, k) && e.nonce != nonce
    ensures Among(Without(pending, nonce), e, k)
  {
    var rest, last := pending[..|pending| - 1], pending[|pending| - 1];
    if last == e {
      var without := Without(rest, nonce);
      assert (without + [e])[|without|] == e;
    } else {
      AmongWithout(rest, e, k - 1, nonce);
      if last.nonce == nonce {
        AmongMore(Without(rest, nonce), e, k - 1);
        assert Without(pending, nonce) == Without(rest, nonce);
      } else {
        AmongLonger(Without(rest, nonce), e, k - 1, last);
      }
    }
  }

  lemma {:induction false} AmongIsIn(pending: seq<Pending>, e: Pending, k: nat)
    requires Among(pending, e, k)
    ensures e in pending
  {
    if pending[|pending| - 1] != e {
      AmongIsIn(pending[..|pending| - 1], e, k - 1);
    }
  }

  function Issues(log: seq<Step>): nat {
    if log == [] then 0 else Issues(log[..|log| - 1]) + (if log[|log| - 1].Issue? then 1 else 0)
  }

  lemma AmongPruned(pending: seq<Pending>, e: Pending, k: nat, now: nat)
    requires Among(pending, e, k) && e.expiresAt > now && k < MAX_PENDING_NONCES
    ensures Among(Pruned(pending, now), e, k)
  {
    AmongAlive(pending, e, k, now);
    if |Alive(pending, now)| >= MAX_PENDING_NONCES {
      AmongSuffix(Alive(pending, now), e, k, MAX_PENDING_NONCES - 1);
    }
  }

  /** An unexpired nonce nobody tried to use survives while at most 9,999 others are issued. */
  lemma {:induction false} FreshNonceSurvives(before: seq<Step>, issue: Step, since: seq<Step>)
    requires issue.Issue? && WellTimed(before + [issue] + since) && Issues(since) < MAX_PENDING_NONCES
    requires forall s :: s in since ==> s.now < issue.now + NONCE_TTL_MS
    requires forall s :: s in since && s.Verify? ==> s.nonce != issue.nonce
    ensures Among(After(before + [issue] + since).pending,
                  Pending(issue.nonce, issue.wallet, issue.now + NONCE_TTL_MS), 1 + Issues(since))
    decreases |since|
  {
    hide Among, Pruned, Without, Sound, Put, WellTimed;
    var e := Pending(issue.nonce, issue.wallet, issue.now + NONCE_TTL_MS);
    if since == [] {
      var log := before + [issue];
      assert log + since == log && log[..|log| - 1] == before;
      TimedPrefix(before, [issue]);
      EveryRunIsSound(before);
      IssueKeepsSound(before, After(before), issue);
      AmongLast(Pruned(After(before).pending, issue.now), e);
    } else {
      var rest, step := since[..|since| - 1], since[|since| - 1];
      var log := before + [issue] + rest;
      assert before + [issue] + since == log + [step];
      assert (log + [step])[..|log|] == log;
      TimedPrefix(log, [step]);
      FreshNonceSurvives(before, issue, rest);
      var pending := After(log).pending;
      if step.Issue? {
        EveryRunIsSound(log);
        IssueKeepsSound(log, After(log), step);
        AmongPruned(pending, e, 1 + Issues(rest), step.now);
        AmongLonger(Pruned(pending, step.now), e, 1 + Issues(rest),
                    Pending(step.nonce, step.wallet, step.now + NONCE_TTL_MS));
      } else {
        AmongWithout(pending, e, 1 + Issues(rest), step.nonce);
      }
    }
  }

  lemma TimedPrefix(log: seq<Step>, more: seq<Step>)
    requires WellTimed(log + more)
    ensures WellTimed(log)
  {
    assert forall i :: 0 <= i < |log| ==> (log + more)[i] == log[i];
  }

  lemma AmongLast(pending: seq<Pending>, e: Pending)
    ensures Among(pending + [e], e, 1)
  {
    assert (pending + [e])[|pending|] == e;
  }

  /** So the first, timely sign-in by the right wallet reaches its signature check. */
  lemma FreshNonceIsChecked(before: seq<Step>, issue: Step, since: seq<Step>, now: nat)
    requires issue.Issue? && WellTimed(before + [issue] + since) && Issues(since) < MAX_PENDING_NONCES
    requires forall s :: s in since ==> s.now < issue.now + NONCE_TTL_MS
    requires forall s :: s in since && s.Verify? ==> s.nonce != issue.nonce
    ensures Reaches(After(before + [issue] + since).pending, issue.wallet, issue.nonce, now)
            <==> now < issue.now + NONCE_TTL_MS
  {
    hide After, WellTimed, Among;
    var log := before + [issue] + since;
    var pending := After(log).pending;
    var e := Pending(issue.nonce, issue.wallet, issue.now + NONCE_TTL_MS);
    FreshNonceSurvives(before, issue, since);
    AmongIsIn(pending, e, 1 + Issues(since));
    EveryRunIsSound(log);
    LookupFinds(pending, issue.nonce);
    var i :| 0 <= i < |pending| && pending[i] == e;
    assert Has(pending, issue.nonce);
    assert Lookup(pending, issue.nonce).value in pending;
    assert Lookup(pending, issue.nonce).value == e;
  }
}
