/** What every run of logins, refreshes and logouts keeps. */
module SessionSafety {
  import opened Wrappers
  import opened RefreshFamilies

  datatype Step =
    | Login(user: string, family: string, hash: string, now: int, created: int)
    | Refresh(hash: string, newHash: string, now: int, created: int, status: UserState)
    | Logout(hash: string, user: string, now: int)

  function Next(cfg: Config, table: seq<Token>, step: Step): Response {
    match step
    case Login(user, family, hash, now, created) => LoginStep(cfg, table, user, family, hash, now, created)
    case Refresh(hash, newHash, now, created, status) => RefreshStep(cfg, table, hash, newHash, now, created, status)
    case Logout(hash, user, now) => LogoutStep(table, hash, user, now)
  }

  ghost predicate HasFamily(table: seq<Token>, family: string) {
    exists i :: 0 <= i < |table| && table[i].family == family
  }

  /** A login draws a family id nobody has. */
  ghost predicate Possible(table: seq<Token>, step: Step) {
    step.Login? ==> !HasFamily(table, step.family)
  }

  // ---- one step

  ghost predicate HashesDiffer(table: seq<Token>) {
    forall i, j :: 0 <= i < j < |table| ==> table[i].hash != table[j].hash
  }

  /** The tokens of a family share one user and one absolute expiry. */
  ghost predicate FamiliesAgree(table: seq<Token>) {
    forall i, j :: 0 <= i < |table| && 0 <= j < |table| && table[i].family == table[j].family ==>
      table[i].user == table[j].user && table[i].absolute == table[j].absolute
  }

  ghost predicate Capped(table: seq<Token>) {
    forall i :: 0 <= i < |table| ==> table[i].expires <= table[i].absolute
  }

  /** The row a rotated token was replaced by comes later, in the same family. */
  ghost predicate LinksTo(table: seq<Token>, i: nat, j: nat)
    requires i < |table|
  {
    i < j < |table| && table[i].replacedBy == Some(table[j].hash) && table[j].family == table[i].family
  }

  ghost predicate LinksForward(table: seq<Token>) {
    forall i :: 0 <= i < |table| && table[i].replacedBy.Some? ==> table[i].revoked.Some? && exists j :: LinksTo(table, i, j)
  }

  ghost predicate RevokedBy(table: seq<Token>, now: int) {
    forall i :: 0 <= i < |table| && table[i].revoked.Some? ==> table[i].revoked.value <= now
  }

  ghost predicate Sound(table: seq<Token>, now: int) {
    HashesDiffer(table) && FamiliesAgree(table) && Capped(table) && LinksForward(table) && RevokedBy(table, now)
  }

  /** A revoked row never changes again, an unrevoked one can only be revoked;
      rows of other families than the step's are left alone. */
  ghost predicate Evolves(before: seq<Token>, after: seq<Token>, event: Event) {
    && |before| <= |after|
    && forall i :: 0 <= i < |before| ==>
         && (before[i].revoked.Some? ==> after[i] == before[i])
         && (event == Nothing || event.family != before[i].family ==> after[i] == before[i])
         && after[i].hash == before[i].hash && after[i].family == before[i].family && after[i].user == before[i].user
         && after[i].absolute == before[i].absolute && after[i].expires == before[i].expires
  }

  lemma StepEvolves(cfg: Config, table: seq<Token>, step: Step)
    ensures Evolves(table, Next(cfg, table, step).table, Next(cfg, table, step).event)
  {
  }

  /** The row a step adds, if any, belongs to the family the step is about. */
  ghost predicate Adds(before: seq<Token>, outcome: Outcome, event: Event, after: seq<Token>) {
    && (event.LoggedIn? || event.Rotated? || event.Graced? ==>
          |after| == |before| + 1 && after[|before|].family == event.family && after[|before|].revoked.None?)
    && (event.Revoked? || event.Nothing? ==> |after| == |before|)
    && (event.Nothing? ==> after == before)
    && (outcome.Issued? <==> event.LoggedIn? || event.Rotated? || event.Graced?)
  }

  lemma StepAdds(cfg: Config, table: seq<Token>, step: Step)
    ensures var r := Next(cfg, table, step); Adds(table, r.outcome, r.event, r.table)
  {
  }

  lemma {:induction false} RevokeIsSound(table: seq<Token>, family: string, now: int)
    requires Sound(table, now)
    ensures Sound(RevokeFamily(table, family, now), now)
  {
    var after := RevokeFamily(table, family, now);
    forall i | 0 <= i < |after| && after[i].replacedBy.Some?
      ensures exists j :: LinksTo(after, i, j)
    {
      var j :| LinksTo(table, i, j);
      assert LinksTo(after, i, j);
    }
  }

  /** Adding a fresh row, with or without rotating the old one, is sound. */
  lemma {:induction false} IssueIsSound(table: seq<Token>, issued: Token, now: int)
    requires Sound(table, now) && Find(table, issued.hash).None?
    requires issued.revoked.None? && issued.replacedBy.None? && issued.expires <= issued.absolute
    requires forall i :: 0 <= i < |table| && table[i].family == issued.family ==>
               table[i].user == issued.user && table[i].absolute == issued.absolute
    ensures Sound(table + [issued], now)
  {
    var after := table + [issued];
    forall i | 0 <= i < |after| && after[i].replacedBy.Some?
      ensures after[i].revoked.Some? && exists j :: LinksTo(after, i, j)
    {
      var j :| LinksTo(table, i, j);
      assert LinksTo(after, i, j);
    }
  }

  lemma {:induction false} RotateIsSound(table: seq<Token>, i: nat, now: int)
    requires Sound(table, now) && i < |table| - 1 && table[i].revoked.None?
    requires table[|table| - 1].family == table[i].family
    ensures Sound(table[i := table[i].(revoked := Some(now), replacedBy := Some(table[|table| - 1].hash))], now)
  {
    var after := table[i := table[i].(revoked := Some(now), replacedBy := Some(table[|table| - 1].hash))];
    forall k | 0 <= k < |after| && after[k].replacedBy.Some?
      ensures after[k].revoked.Some? && exists j :: LinksTo(after, k, j)
    {
      if k == i {
        assert LinksTo(after, k, |table| - 1);
      } else {
        var j :| LinksTo(table, k, j);
        assert LinksTo(after, k, j);
      }
    }
  }

  lemma SoundLater(table: seq<Token>, now: int, later: int)
    requires Sound(table, now) && now <= later
    ensures Sound(table, later)
  {
  }

  lemma {:induction false} RefreshIsSound(cfg: Config, table: seq<Token>, hash: string, newHash: string, now: int, created: int, status: UserState)
    requires Sound(table, now)
    ensures Sound(RefreshStep(cfg, table, hash, newHash, now, created, status).table, now)
  {
    var r := RefreshStep(cfg, table, hash, newHash, now, created, status);
    if r.event.Revoked? {
      RevokeIsSound(table, r.event.family, now);
    } else if !r.event.Nothing? {
      var i := Find(table, hash).value;
      var issued := NewToken(cfg, table[i].user, table[i].family, newHash, table[i].absolute, created);
      IssueIsSound(table, issued, now);
      if r.event.Rotated? {
        RotateIsSound(table + [issued], i, now);
        assert (table + [issued])[i := table[i].(revoked := Some(now), replacedBy := Some(newHash))] == r.table;
      }
    }
  }

  lemma {:induction false} StepIsSound(cfg: Config, table: seq<Token>, clock: int, step: Step)
    requires Sound(table, clock) && clock <= step.now && Possible(table, step)
    ensures Sound(Next(cfg, table, step).table, step.now)
  {
    SoundLater(table, clock, step.now);
    match step
    case Login(user, family, hash, now, created) =>
      if Find(table, hash).None? {
        IssueIsSound(table, NewToken(cfg, user, family, hash, now + cfg.absoluteTTL, created), now);
      }
    case Logout(hash, user, now) =>
      var i := Find(table, hash);
      if i.Some? {
        RevokeIsSound(table, table[i.value].family, now);
      }
    case Refresh(hash, newHash, now, created, status) =>
      RefreshIsSound(cfg, table, hash, newHash, now, created, status);
  }

  // ---- counting live tokens

  /** How many tokens of the family are not revoked. */
  function Unrevoked(table: seq<Token>, family: string): nat {
    if table == [] then 0
    else Unrevoked(table[..|table| - 1], family)
         + if table[|table| - 1].family == family && table[|table| - 1].revoked.None? then 1 else 0
  }

  lemma {:induction false} UnrevokedOfUpdate(table: seq<Token>, i: nat, t: Token, family: string)
    requires i < |table| && table[i].revoked.None? && t.revoked.Some? && t.family == table[i].family
    ensures Unrevoked(table[i := t], family) == Unrevoked(table, family) - if table[i].family == family then 1 else 0
  {
    var after := table[i := t];
    if i < |table| - 1 {
      UnrevokedOfUpdate(table[..|table| - 1], i, t, family);
      assert after[..|table| - 1] == table[..|table| - 1][i := t];
    } else {
      assert after[..|table| - 1] == table[..|table| - 1];
    }
  }

  lemma {:induction false} UnrevokedOfRevoke(table: seq<Token>, family: string, now: int, other: string)
    ensures Unrevoked(RevokeFamily(table, family, now), other) == if other == family then 0 else Unrevoked(table, other)
  {
    if table != [] {
      var front := table[..|table| - 1];
      UnrevokedOfRevoke(front, family, now, other);
      assert RevokeFamily(table, family, now)[..|table| - 1] == RevokeFamily(front, family, now);
    }
  }

  lemma {:induction false} UnrevokedOfAppend(table: seq<Token>, t: Token, family: string)
    ensures Unrevoked(table + [t], family) == Unrevoked(table, family) + if t.family == family && t.revoked.None? then 1 else 0
  {
    assert (table + [t])[..|table|] == table;
  }

  lemma {:induction false} RotationCounts(table: seq<Token>, i: nat, rotated: Token, issued: Token, family: string)
    requires i < |table| && table[i].revoked.None? && rotated.revoked.Some? && rotated.family == table[i].family == issued.family
    requires issued.revoked.None?
    ensures Unrevoked(table[i := rotated] + [issued], family) == Unrevoked(table, family)
  {
    UnrevokedOfUpdate(table, i, rotated, family);
    UnrevokedOfAppend(table[i := rotated], issued, family);
  }

  ghost predicate CountFits(before: seq<Token>, event: Event, after: seq<Token>, family: string) {
    Unrevoked(after, family) ==
      if event == Revoked(family) then 0
      else Unrevoked(before, family) + if event == LoggedIn(family) || event == Graced(family) then 1 else 0
  }

  lemma {:induction false} RefreshCounts(cfg: Config, table: seq<Token>, hash: string, newHash: string, now: int, created: int, status: UserState, family: string)
    ensures var r := RefreshStep(cfg, table, hash, newHash, now, created, status); CountFits(table, r.event, r.table, family)
  {
    var r := RefreshStep(cfg, table, hash, newHash, now, created, status);
    if r.event.Revoked? {
      UnrevokedOfRevoke(table, r.event.family, now, family);
    } else if !r.event.Nothing? {
      var i := Find(table, hash).value;
      var issued := NewToken(cfg, table[i].user, table[i].family, newHash, table[i].absolute, created);
      if r.event.Rotated? {
        RotationCounts(table, i, table[i].(revoked := Some(now), replacedBy := Some(newHash)), issued, family);
      } else {
        UnrevokedOfAppend(table, issued, family);
      }
    }
  }

  /** What one step does to the number of live tokens of any family. */
  lemma {:induction false} StepCounts(cfg: Config, table: seq<Token>, step: Step, family: string)
    ensures var r := Next(cfg, table, step); CountFits(table, r.event, r.table, family)
  {
    match step
    case Login(user, f, hash, now, created) =>
      UnrevokedOfAppend(table, NewToken(cfg, user, f, hash, now + cfg.absoluteTTL, created), family);
    case Logout(hash, user, now) =>
      var i := Find(table, hash);
      if i.Some? {
        UnrevokedOfRevoke(table, table[i.value].family, now, family);
      }
    case Refresh(hash, newHash, now, created, status) =>
      RefreshCounts(cfg, table, hash, newHash, now, created, status, family);
  }

  // ---- what every step does

  /** The step issued a token in the family. */
  predicate IssuedIn(outcome: Outcome, event: Event, family: string) {
    outcome.Issued? && event != Nothing && event.family == family
  }

  /** A refresh was asked for in time, by the idle expiry and by the cap of a row it could
      use, and issues nothing beyond that cap. */
  ghost predicate Bounded(cfg: Config, before: seq<Token>, now: int, outcome: Outcome, event: Event) {
    outcome.Issued? && !event.LoggedIn? && !event.Nothing? ==>
      exists i :: 0 <= i < |before| && before[i].family == event.family
                  && now <= before[i].expires && now <= before[i].absolute && outcome.expires <= before[i].absolute
                  && (before[i].revoked.None? || WithinGrace(cfg, before[i], now))
  }

  ghost predicate Counts(before: seq<Token>, event: Event, after: seq<Token>) {
    forall family :: CountFits(before, event, after, family)
  }

  /** A step about a family either logs it in, unknown before, or finds it there. */
  ghost predicate Concerns(cfg: Config, before: seq<Token>, now: int, event: Event, after: seq<Token>) {
    && (event.LoggedIn? ==>
          !HasFamily(before, event.family) && |before| < |after| && after[|before|].absolute == now + cfg.absoluteTTL)
    && (!event.LoggedIn? && !event.Nothing? ==> HasFamily(before, event.family))
    && (event.Revoked? ==> after == RevokeFamily(before, event.family, now))
  }

  /** Everything the runs below need to know of one step. */
  ghost predicate Behaves(cfg: Config, before: seq<Token>, now: int, outcome: Outcome, event: Event, after: seq<Token>) {
    && Evolves(before, after, event)
    && Adds(before, outcome, event, after)
    && Bounded(cfg, before, now, outcome, event)
    && Counts(before, event, after)
    && Concerns(cfg, before, now, event, after)
  }

  lemma {:induction false} StepIsBounded(cfg: Config, table: seq<Token>, step: Step)
    requires FamiliesAgree(table)
    ensures Bounded(cfg, table, step.now, Next(cfg, table, step).outcome, Next(cfg, table, step).event)
  {
    if step.Refresh? {
      var i := Find(table, step.hash);
      assert i.Some? && Next(cfg, table, step).outcome.Issued? ==> table[i.value].family == Next(cfg, table, step).event.family;
    }
  }

  lemma {:induction false} StepConcerns(cfg: Config, table: seq<Token>, step: Step)
    requires Possible(table, step)
    ensures Concerns(cfg, table, step.now, Next(cfg, table, step).event, Next(cfg, table, step).table)
  {
    StepAdds(cfg, table, step);
  }

  lemma {:induction false} StepBehaves(cfg: Config, table: seq<Token>, step: Step)
    requires Possible(table, step) && FamiliesAgree(table)
    ensures var r := Next(cfg, table, step); Behaves(cfg, table, step.now, r.outcome, r.event, r.table)
  {
    StepEvolves(cfg, table, step);
    StepAdds(cfg, table, step);
    StepIsBounded(cfg, table, step);
    StepConcerns(cfg, table, step);
    var r := Next(cfg, table, step);
    forall family
      ensures CountFits(table, r.event, r.table, family)
    {
      StepCounts(cfg, table, step, family);
    }
  }

  // ---- runs

  /** A recorded run: the steps, the tables between them, and what each did. */
  datatype History = History(
    steps: seq<Step>,
    tables: seq<seq<Token>>,
    outcomes: seq<Outcome>,
    events: seq<Event>)
  {
    predicate Shaped() {
      |tables| == |steps| + 1 && |outcomes| == |events| == |steps| && tables[0] == []
    }

    predicate ClockRuns() {
      forall j, k :: 0 <= j <= k < |steps| ==> steps[j].now <= steps[k].now
    }

    /** The tables and events are those of the steps, from an empty table,
        and every login drew a new family id. */
    ghost predicate Recorded(cfg: Config) {
      && Shaped() && ClockRuns()
      && forall k :: 0 <= k < |steps| ==>
           && Possible(tables[k], steps[k])
           && Next(cfg, tables[k], steps[k]) == Response(tables[k + 1], outcomes[k], events[k])
    }

    ghost predicate Behaved(cfg: Config) {
      && Shaped() && ClockRuns()
      && forall k :: 0 <= k < |steps| ==> Behaves(cfg, tables[k], steps[k].now, outcomes[k], events[k], tables[k + 1])
    }
  }

  lemma BehavesAt(cfg: Config, h: History, k: nat)
    requires h.Behaved(cfg) && k < |h.steps|
    ensures Behaves(cfg, h.tables[k], h.steps[k].now, h.outcomes[k], h.events[k], h.tables[k + 1])
  {
  }

  lemma {:induction false} CountFitsAt(cfg: Config, h: History, k: nat, family: string)
    requires h.Behaved(cfg) && k < |h.steps|
    ensures CountFits(h.tables[k], h.events[k], h.tables[k + 1], family)
    ensures h.events[k] == LoggedIn(family) ==> !HasFamily(h.tables[k], family)
  {
    BehavesAt(cfg, h, k);
  }

  /** In every reachable table: one user and one absolute expiry per family,
      idle expiry within it, replaced-by links forward within the family. */
  lemma {:induction false} TablesAreSound(cfg: Config, h: History, n: nat, now: int)
    requires h.Recorded(cfg) && n <= |h.steps| && forall k :: 0 <= k < n ==> h.steps[k].now <= now
    ensures Sound(h.tables[n], now)
  {
    if n > 0 {
      TablesAreSound(cfg, h, n - 1, h.steps[n - 1].now);
      StepIsSound(cfg, h.tables[n - 1], h.steps[n - 1].now, h.steps[n - 1]);
      SoundLater(h.tables[n], h.steps[n - 1].now, now);
    }
  }

  lemma {:induction false} RecordedBehaves(cfg: Config, h: History)
    requires h.Recorded(cfg)
    ensures h.Behaved(cfg)
  {
    forall k | 0 <= k < |h.steps|
      ensures Behaves(cfg, h.tables[k], h.steps[k].now, h.outcomes[k], h.events[k], h.tables[k + 1])
    {
      TablesAreSound(cfg, h, k, h.steps[k].now);
      StepBehaves(cfg, h.tables[k], h.steps[k]);
    }
  }

  /** The row is the same up to its revocation, and the very same once revoked. */
  predicate SameRow(before: Token, after: Token) {
    && (before.revoked.Some? ==> after == before)
    && after.hash == before.hash && after.family == before.family && after.user == before.user
    && after.absolute == before.absolute && after.expires == before.expires
  }

  /** Rows only ever accumulate, and keep everything but their revocation. */
  lemma {:induction false} RowsStay(cfg: Config, h: History, m: nat, n: nat, i: nat)
    requires h.Behaved(cfg) && m <= n <= |h.steps| && i < |h.tables[m]|
    ensures i < |h.tables[n]| && SameRow(h.tables[m][i], h.tables[n][i])
  {
    if m < n {
      RowsStay(cfg, h, m, n - 1, i);
      BehavesAt(cfg, h, n - 1);
    }
  }

  lemma {:induction false} FamiliesStay(cfg: Config, h: History, m: nat, n: nat, family: string)
    requires h.Behaved(cfg) && m <= n <= |h.steps| && HasFamily(h.tables[m], family)
    ensures HasFamily(h.tables[n], family)
  {
    var i :| 0 <= i < |h.tables[m]| && h.tables[m][i].family == family;
    RowsStay(cfg, h, m, n, i);
    assert h.tables[n][i].family == family;
  }

  /** No chain of rotations outlives the login's cap: whatever is issued later
      in the family, by however many refreshes, was asked for by the cap and
      expires by the cap. */
  lemma {:induction false} SessionsAreCapped(cfg: Config, h: History, j: nat, k: nat, family: string)
    requires h.Recorded(cfg) && j < k < |h.steps|
    requires h.events[j] == LoggedIn(family)
    requires IssuedIn(h.outcomes[k], h.events[k], family)
    ensures h.steps[k].now <= h.steps[j].now + cfg.absoluteTTL
    ensures h.outcomes[k].expires <= h.steps[j].now + cfg.absoluteTTL
  {
    RecordedBehaves(cfg, h);
    TablesAreSound(cfg, h, k, h.steps[k].now);
    BehavedIsCapped(cfg, h, j, k, family);
  }

  lemma {:induction false} BehavedIsCapped(cfg: Config, h: History, j: nat, k: nat, family: string)
    requires h.Behaved(cfg) && j < k < |h.steps| && FamiliesAgree(h.tables[k])
    requires h.events[j] == LoggedIn(family)
    requires IssuedIn(h.outcomes[k], h.events[k], family)
    ensures h.steps[k].now <= h.steps[j].now + cfg.absoluteTTL
    ensures h.outcomes[k].expires <= h.steps[j].now + cfg.absoluteTTL
  {
    var born := |h.tables[j]|;
    BehavesAt(cfg, h, j);
    BehavesAt(cfg, h, k);
    RowsStay(cfg, h, j + 1, k, born);
    assert HasFamily(h.tables[k], family);
    var i :| 0 <= i < |h.tables[k]| && h.tables[k][i].family == family
             && h.steps[k].now <= h.tables[k][i].absolute && h.outcomes[k].expires <= h.tables[k][i].absolute;
  }

  // ---- idle sessions

  /** Every token of the family had run out by idleness before this time. */
  ghost predicate AllIdle(table: seq<Token>, family: string, t: int) {
    forall i :: 0 <= i < |table| && table[i].family == family ==> table[i].expires < t
  }

  lemma {:induction false} IdleStep(cfg: Config, h: History, n: nat, family: string, t: int)
    requires h.Behaved(cfg) && n < |h.steps| && t <= h.steps[n].now
    requires HasFamily(h.tables[n], family) && AllIdle(h.tables[n], family, t)
    ensures !IssuedIn(h.outcomes[n], h.events[n], family)
    ensures AllIdle(h.tables[n + 1], family, t)
  {
    BehavesAt(cfg, h, n);
  }

  lemma {:induction false} IdleFrom(cfg: Config, h: History, m: nat, n: nat, family: string, t: int)
    requires h.Behaved(cfg) && m <= n <= |h.steps| && (m < |h.steps| ==> t <= h.steps[m].now)
    requires HasFamily(h.tables[m], family) && AllIdle(h.tables[m], family, t)
    ensures AllIdle(h.tables[n], family, t) && (m < n ==> !IssuedIn(h.outcomes[n - 1], h.events[n - 1], family))
  {
    if m < n {
      IdleFrom(cfg, h, m, n - 1, family, t);
      FamiliesStay(cfg, h, m, n - 1, family);
      IdleStep(cfg, h, n - 1, family, t);
    }
  }

  /** A session left alone until its last token has run out by idleness issues nothing ever
      again, whoever presents what. */
  lemma {:induction false} IdleSessionEnds(cfg: Config, h: History, m: nat, n: nat, family: string)
    requires h.Recorded(cfg) && m <= n < |h.steps|
    requires HasFamily(h.tables[m], family) && AllIdle(h.tables[m], family, h.steps[m].now)
    ensures !IssuedIn(h.outcomes[n], h.events[n], family)
  {
    RecordedBehaves(cfg, h);
    IdleFrom(cfg, h, m, n + 1, family, h.steps[m].now);
  }

  // ---- what a request gets

  /** The stored token i can be traded in: it was never revoked, or it was rotated no longer
      ago than the grace window. */
  predicate Usable(cfg: Config, t: Token, now: int) {
    t.revoked.None? || (t.replacedBy.Some? && now - t.revoked.value <= cfg.grace)
  }

  ghost predicate Unknown(table: seq<Token>, hash: string) {
    forall k :: 0 <= k < |table| ==> table[k].hash != hash
  }

  /** A new token: of this user and family, not revoked, and running out after the idle time
      or at the cap, whichever is first. */
  predicate IsNew(cfg: Config, t: Token, user: string, family: string, hash: string, absolute: int, created: int) {
    && t.user == user && t.family == family && t.hash == hash && t.absolute == absolute && t.revoked.None? && t.replacedBy.None?
    && (created + cfg.idleTTL <= absolute ==> t.expires == created + cfg.idleTTL)
    && (created + cfg.idleTTL > absolute ==> t.expires == absolute)
  }

  lemma {:induction false} FindIs(table: seq<Token>, i: nat)
    requires HashesDiffer(table) && i < |table|
    ensures Find(table, table[i].hash) == Some(i)
  {
    var j := Find(table, table[i].hash).value;
    assert j == i;
  }

  /** What a refresh answers for a stored token, live or not. */
  lemma {:induction false} RefreshIsExact(cfg: Config, table: seq<Token>, i: nat, newHash: string, now: int, created: int, user: UserState)
    requires HashesDiffer(table) && i < |table|
    ensures var t := table[i];
            var r := RefreshStep(cfg, table, t.hash, newHash, now, created, user);
            && (r.outcome.Issued? <==>
                  Usable(cfg, t, now) && now <= t.expires && now <= t.absolute && user == Active && Unknown(table, newHash))
            && (r.outcome == InvalidCredentials <==> !Usable(cfg, t, now))
            && (r.outcome == TokenExpired <==> Usable(cfg, t, now) && (now > t.expires || now > t.absolute))
            && (r.outcome == UserNotFound <==> Usable(cfg, t, now) && now <= t.expires && now <= t.absolute && user == Missing)
            && (r.outcome == AccountSuspended <==> Usable(cfg, t, now) && now <= t.expires && now <= t.absolute && user == Inactive)
  {
    FindIs(table, i);
  }

  /** An unknown token gets nothing and changes nothing. */
  lemma {:induction false} UnknownIsRefused(cfg: Config, table: seq<Token>, hash: string, newHash: string, now: int, created: int, user: UserState)
    requires Unknown(table, hash)
    ensures RefreshStep(cfg, table, hash, newHash, now, created, user) == Response(table, InvalidCredentials, Nothing)
  {
    assert Find(table, hash).None?;
  }

  /** What a refresh leaves: a new token of the same user, family and cap, and the old one
      revoked and linked to it unless it was rotated before; a refusal leaves the table as it
      was, but for a dead token, whose family is revoked. */
  lemma {:induction false} RefreshLeaves(cfg: Config, table: seq<Token>, i: nat, newHash: string, now: int, created: int, user: UserState)
    requires HashesDiffer(table) && i < |table|
    ensures var t := table[i];
            var r := RefreshStep(cfg, table, t.hash, newHash, now, created, user);
            && (r.outcome.Issued? ==>
                  && |r.table| == |table| + 1
                  && IsNew(cfg, r.table[|table|], t.user, t.family, newHash, t.absolute, created)
                  && r.outcome.expires == r.table[|table|].expires
                  && r.table[i] == (if t.revoked.None? then t.(revoked := Some(now), replacedBy := Some(newHash)) else t)
                  && forall k :: 0 <= k < |table| && k != i ==> r.table[k] == table[k])
            && (!r.outcome.Issued? && Usable(cfg, t, now) ==> r.table == table)
            && (!Usable(cfg, t, now) ==>
                  && |r.table| == |table|
                  && forall k :: 0 <= k < |table| ==>
                       r.table[k] == if table[k].family == t.family && table[k].revoked.None? then table[k].(revoked := Some(now)) else table[k])
  {
    FindIs(table, i);
  }

  /** What a login leaves: one new token, with the cap counted from the login. */
  lemma {:induction false} LoginIsExact(cfg: Config, table: seq<Token>, user: string, family: string, hash: string, now: int, created: int)
    ensures var r := LoginStep(cfg, table, user, family, hash, now, created);
            && (r.outcome.Issued? <==> Unknown(table, hash))
            && (r.outcome.Issued? ==>
                  && |r.table| == |table| + 1 && r.table[..|table|] == table
                  && IsNew(cfg, r.table[|table|], user, family, hash, now + cfg.absoluteTTL, created)
                  && r.outcome.expires == r.table[|table|].expires)
            && (!r.outcome.Issued? ==> r.outcome == HashTaken && r.table == table)
  {
  }

  /** What a logout leaves: the family of the user's own token without a live token, and the
      others as they were; anybody else's token does nothing. */
  lemma {:induction false} LogoutIsExact(table: seq<Token>, hash: string, user: string, now: int)
    requires HashesDiffer(table)
    ensures var r := LogoutStep(table, hash, user, now);
            && |r.table| == |table|
            && (Unknown(table, hash) ==> r.table == table)
            && forall i :: 0 <= i < |table| && table[i].hash == hash ==>
                 && (table[i].user != user ==> r.table == table)
                 && (table[i].user == user ==> forall k :: 0 <= k < |table| ==>
                       r.table[k] == if table[k].family == table[i].family && table[k].revoked.None?
                                     then table[k].(revoked := Some(now)) else table[k])
  {
    forall i | 0 <= i < |table| && table[i].hash == hash
      ensures Find(table, hash) == Some(i)
    {
      FindIs(table, i);
    }
  }

  // ---- replaced-by chains

  /** The row reached from row i after following n replaced-by links. */
  function Follow(table: seq<Token>, i: nat, n: nat): Option<nat>
    requires i < |table|
    decreases n
  {
    if n == 0 then Some(i)
    else if table[i].replacedBy.None? then None
    else match Find(table, table[i].replacedBy.value)
      case None => None
      case Some(j) => Follow(table, j, n - 1)
  }

  /** Following links only moves forward within the family, so no chain of
      replacements ever comes back to where it started. */
  lemma {:induction false} LinksAreAcyclic(table: seq<Token>, now: int, i: nat, n: nat)
    requires Sound(table, now) && i < |table|
    ensures match Follow(table, i, n)
            case Some(j) => j < |table| && i + n <= j && table[j].family == table[i].family
            case None => n > 0
    decreases n
  {
    if n > 0 && table[i].replacedBy.Some? {
      var j :| LinksTo(table, i, j);
      var k := Find(table, table[i].replacedBy.value).value;
      assert k == j;
      LinksAreAcyclic(table, now, j, n - 1);
    }
  }

  // ---- how many tokens of a family are live

  predicate EverRevoked(h: History, n: nat, family: string)
    requires n <= |h.events|
  {
    Revoked(family) in h.events[..n]
  }

  predicate EverBorn(h: History, n: nat, family: string)
    requires n <= |h.events|
  {
    LoggedIn(family) in h.events[..n]
  }

  /** The grace refreshes of the family since it was last revoked. */
  function GraceSince(h: History, n: nat, family: string): nat
    requires n <= |h.events|
  {
    if n == 0 || h.events[n - 1] == Revoked(family) then 0
    else GraceSince(h, n - 1, family) + if h.events[n - 1] == Graced(family) then 1 else 0
  }

  lemma {:induction false} EventsGrow(h: History, n: nat, e: Event)
    requires n < |h.events|
    ensures e in h.events[..n + 1] <==> e in h.events[..n] || h.events[n] == e
  {
    assert h.events[..n + 1] == h.events[..n] + [h.events[n]];
  }

  /** Nothing happens to a family before its login. */
  lemma {:induction false} UnbornIsUntouched(cfg: Config, h: History, n: nat, family: string)
    requires h.Behaved(cfg) && n <= |h.steps| && !HasFamily(h.tables[n], family)
    ensures !EverRevoked(h, n, family) && !EverBorn(h, n, family) && GraceSince(h, n, family) == 0
  {
    if n > 0 {
      if HasFamily(h.tables[n - 1], family) {
        FamiliesStay(cfg, h, n - 1, n, family);
      }
      UnbornIsUntouched(cfg, h, n - 1, family);
      BehavesAt(cfg, h, n - 1);
      EventsGrow(h, n - 1, Revoked(family));
      EventsGrow(h, n - 1, LoggedIn(family));
    }
  }

  lemma {:induction false} LiveTokensOf(cfg: Config, h: History, n: nat, family: string)
    requires h.Behaved(cfg) && n <= |h.steps|
    ensures Unrevoked(h.tables[n], family) ==
            (if EverBorn(h, n, family) && !EverRevoked(h, n, family) then 1 else 0) + GraceSince(h, n, family)
  {
    if n > 0 {
      LiveTokensOf(cfg, h, n - 1, family);
      CountFitsAt(cfg, h, n - 1, family);
      EventsGrow(h, n - 1, Revoked(family));
      EventsGrow(h, n - 1, LoggedIn(family));
      if h.events[n - 1] == LoggedIn(family) {
        UnbornIsUntouched(cfg, h, n - 1, family);
      }
    }
  }

  /** The live tokens of a family are the login's own, unless the family was
      ever revoked, and one for each grace refresh since it last was. */
  lemma {:induction false} LiveTokensAreCounted(cfg: Config, h: History, n: nat, family: string)
    requires h.Recorded(cfg) && n <= |h.steps|
    ensures Unrevoked(h.tables[n], family) ==
            (if EverBorn(h, n, family) && !EverRevoked(h, n, family) then 1 else 0) + GraceSince(h, n, family)
  {
    RecordedBehaves(cfg, h);
    LiveTokensOf(cfg, h, n, family);
  }

  // ---- dead families

  /** Every token is revoked, and every rotated one is past its grace window. */
  ghost predicate Dead(cfg: Config, table: seq<Token>, family: string, now: int) {
    forall i :: 0 <= i < |table| && table[i].family == family ==> table[i].revoked.Some? && !WithinGrace(cfg, table[i], now)
  }

  /** No token of a dead family is honoured, and the family stays dead under
      every later step. */
  lemma DeadStaysDead(cfg: Config, before: seq<Token>, family: string, t: int, now: int, outcome: Outcome, event: Event, after: seq<Token>)
    requires Behaves(cfg, before, now, outcome, event, after)
    requires Dead(cfg, before, family, t) && t <= now && HasFamily(before, family)
    ensures Dead(cfg, after, family, t)
    ensures !IssuedIn(outcome, event, family)
  {
  }

  lemma {:induction false} DeadStep(cfg: Config, h: History, n: nat, family: string, t: int)
    requires h.Behaved(cfg) && n < |h.steps|
    requires HasFamily(h.tables[n], family) && Dead(cfg, h.tables[n], family, t) && t <= h.steps[n].now
    ensures Dead(cfg, h.tables[n + 1], family, t)
    ensures !IssuedIn(h.outcomes[n], h.events[n], family)
  {
    BehavesAt(cfg, h, n);
    DeadStaysDead(cfg, h.tables[n], family, t, h.steps[n].now, h.outcomes[n], h.events[n], h.tables[n + 1]);
  }

  lemma {:induction false} DeadFrom(cfg: Config, h: History, m: nat, n: nat, family: string, t: int)
    requires h.Behaved(cfg) && m <= n <= |h.steps|
    requires HasFamily(h.tables[m], family) && Dead(cfg, h.tables[m], family, t)
    requires m < |h.steps| ==> t <= h.steps[m].now
    ensures Dead(cfg, h.tables[n], family, t)
    ensures m < n ==> !IssuedIn(h.outcomes[n - 1], h.events[n - 1], family)
  {
    if m < n {
      DeadFrom(cfg, h, m, n - 1, family, t);
      FamiliesStay(cfg, h, m, n - 1, family);
      DeadStep(cfg, h, n - 1, family, t);
    }
  }

  /** A family once dead is dead ever after, and none of its tokens is honoured
      again, whatever happens later. */
  lemma {:induction false} DeadForever(cfg: Config, h: History, m: nat, n: nat, family: string, t: int, later: int)
    requires h.Recorded(cfg) && m <= n < |h.steps|
    requires HasFamily(h.tables[m], family) && Dead(cfg, h.tables[m], family, t) && t <= h.steps[m].now && t <= later
    ensures Dead(cfg, h.tables[n + 1], family, later)
    ensures !IssuedIn(h.outcomes[n], h.events[n], family)
  {
    RecordedBehaves(cfg, h);
    DeadFrom(cfg, h, m, n + 1, family, t);
  }

  /** Every token of the family was revoked by time t. */
  ghost predicate RevokedSince(table: seq<Token>, family: string, t: int) {
    forall i :: 0 <= i < |table| && table[i].family == family ==> table[i].revoked.Some? && table[i].revoked.value <= t
  }

  lemma {:induction false} RevokedStep(cfg: Config, h: History, n: nat, family: string, t: int)
    requires h.Behaved(cfg) && n < |h.steps|
    requires HasFamily(h.tables[n], family) && RevokedSince(h.tables[n], family, t)
    requires !IssuedIn(h.outcomes[n], h.events[n], family)
    ensures RevokedSince(h.tables[n + 1], family, t)
  {
    BehavesAt(cfg, h, n);
  }

  /** Only a refresh of the family itself brings a revoked family back. */
  lemma {:induction false} StaysRevoked(cfg: Config, h: History, m: nat, n: nat, family: string, t: int)
    requires h.Behaved(cfg) && m <= n <= |h.steps|
    requires HasFamily(h.tables[m], family) && RevokedSince(h.tables[m], family, t)
    requires forall k :: m <= k < n ==> !IssuedIn(h.outcomes[k], h.events[k], family)
    ensures RevokedSince(h.tables[n], family, t)
  {
    if m < n {
      StaysRevoked(cfg, h, m, n - 1, family, t);
      FamiliesStay(cfg, h, m, n - 1, family);
      RevokedStep(cfg, h, n - 1, family, t);
    }
  }

  lemma RevokedAtOnce(table: seq<Token>, family: string, now: int)
    requires RevokedBy(table, now)
    ensures RevokedSince(RevokeFamily(table, family, now), family, now)
  {
  }

  /** A family revoked at step m, with no refresh of it since, is dead once the
      grace window after the revocation is over. */
  lemma {:induction false} RevokedFamilyDies(cfg: Config, h: History, m: nat, n: nat, family: string, now: int)
    requires h.Recorded(cfg) && m < n <= |h.steps|
    requires h.events[m] == Revoked(family)
    requires forall k :: m < k < n ==> !IssuedIn(h.outcomes[k], h.events[k], family)
    requires now > h.steps[m].now + cfg.grace
    ensures Dead(cfg, h.tables[n], family, now)
  {
    RecordedBehaves(cfg, h);
    TablesAreSound(cfg, h, m, h.steps[m].now);
    BehavedFamilyDies(cfg, h, m, n, family, now);
  }

  lemma {:induction false} BehavedFamilyDies(cfg: Config, h: History, m: nat, n: nat, family: string, now: int)
    requires h.Behaved(cfg) && m < n <= |h.steps| && RevokedBy(h.tables[m], h.steps[m].now)
    requires h.events[m] == Revoked(family)
    requires forall k :: m < k < n ==> !IssuedIn(h.outcomes[k], h.events[k], family)
    requires now > h.steps[m].now + cfg.grace
    ensures Dead(cfg, h.tables[n], family, now)
  {
    BehavesAt(cfg, h, m);
    RevokedAtOnce(h.tables[m], family, h.steps[m].now);
    FamiliesStay(cfg, h, m, m + 1, family);
    StaysRevoked(cfg, h, m + 1, n, family, h.steps[m].now);
  }

  /** After a logout a token of the family is still honoured exactly when it had
      been rotated before the logout, no longer ago than the grace window, and
      would otherwise be in order. A family is not dead at once. */
  lemma {:induction false} HonouredAfterLogout(cfg: Config, table: seq<Token>, hash: string, user: string, t: int, late: string, newHash: string, now: int, created: int)
    requires Sound(table, t) && t <= now
    requires Find(table, hash).Some? && Find(table, late).Some?
    requires table[Find(table, hash).value].user == user
    requires table[Find(table, late).value].family == table[Find(table, hash).value].family
    ensures var row := table[Find(table, late).value];
            RefreshStep(cfg, LogoutStep(table, hash, user, t).table, late, newHash, now, created, Active).outcome.Issued? <==>
              && row.revoked.Some? && row.replacedBy.Some? && now - row.revoked.value <= cfg.grace
              && now <= row.expires
              && Find(table, newHash).None?
  {
    var family := table[Find(table, hash).value].family;
    var after := RevokeFamily(table, family, t);
    SameFind(table, family, t, late);
    SameFind(table, family, t, newHash);
  }

  lemma {:induction false} SameFind(table: seq<Token>, family: string, now: int, hash: string)
    ensures Find(RevokeFamily(table, family, now), hash) == Find(table, hash)
  {
    if table != [] {
      var front := table[..|table| - 1];
      SameFind(front, family, now, hash);
      assert RevokeFamily(table, family, now)[..|table| - 1] == RevokeFamily(front, family, now);
    }
  }

  /** Presenting a dead token, stolen or not, revokes the whole family. */
  lemma {:induction false} ReuseEndsTheFamily(cfg: Config, table: seq<Token>, hash: string, newHash: string, now: int, created: int, user: UserState)
    requires Sound(table, now) && Find(table, hash).Some?
    requires var row := table[Find(table, hash).value]; row.revoked.Some? && !WithinGrace(cfg, row, now)
    ensures var r, family := RefreshStep(cfg, table, hash, newHash, now, created, user), table[Find(table, hash).value].family;
            && r.outcome == InvalidCredentials
            && Unrevoked(r.table, family) == 0
            && RevokedSince(r.table, family, now)
            && (forall i :: 0 <= i < |table| && table[i].family != family ==> r.table[i] == table[i])
  {
    var family := table[Find(table, hash).value].family;
    UnrevokedOfRevoke(table, family, now, family);
  }

  /** A logout kills the family at once exactly when none of its tokens was
      rotated within the grace window before it. */
  lemma {:induction false} LogoutKillsIff(cfg: Config, table: seq<Token>, hash: string, user: string, t: int)
    requires LinksForward(table)
    requires Find(table, hash).Some? && table[Find(table, hash).value].user == user
    ensures var family := table[Find(table, hash).value].family;
            Dead(cfg, LogoutStep(table, hash, user, t).table, family, t) <==>
              forall i :: 0 <= i < |table| && table[i].family == family ==> !WithinGrace(cfg, table[i], t)
  {
    var family := table[Find(table, hash).value].family;
    var after := RevokeFamily(table, family, t);
    forall i | 0 <= i < |table| && table[i].family == family
      ensures after[i].revoked.Some? && (WithinGrace(cfg, after[i], t) <==> WithinGrace(cfg, table[i], t))
    {
    }
  }

  const BRIEF := Config(1000, 5000, 20)
  const FIRST := Token("u", "a", "f", 1000, 5000, None, None)
  const SECOND := Token("u", "b", "f", 1001, 5000, None, None)
  const THIRD := Token("u", "c", "f", 1003, 5000, None, None)
  const ROTATED := FIRST.(revoked := Some(1), replacedBy := Some("b"))
  const ENDED := SECOND.(revoked := Some(2))

  lemma {:induction false} TrapRefresh()
    ensures Next(BRIEF, [FIRST], Refresh("a", "b", 1, 1, Active)).table == [ROTATED, SECOND]
  {
    FindSecond(FIRST, SECOND);
    assert Find([FIRST], "a") == Some(0) && Find([FIRST], "b") == None;
  }

  lemma {:induction false} TrapLogout()
    ensures Next(BRIEF, [ROTATED, SECOND], Logout("b", "u", 2)).table == [ROTATED, ENDED]
  {
    FindSecond(ROTATED, SECOND);
    assert Find([ROTATED, SECOND], "b") == Some(1);
    assert RevokeFamily([ROTATED, SECOND], "f", 2) == [ROTATED, ENDED];
  }

  lemma {:induction false} TrapGrace()
    ensures Next(BRIEF, [ROTATED, ENDED], Refresh("a", "c", 3, 3, Active)) ==
            Response([ROTATED, ENDED, THIRD], Issued(1003), Graced("f"))
  {
    FindSecond(ROTATED, ENDED);
    assert Find([ROTATED, ENDED], "a") == Some(0);
  }

  /** The trap: log in, refresh, log out, and the token rotated just before the
      logout still buys a new session token. */
  lemma {:induction false} LogoutDoesNotKillAtOnce()
    ensures var t1 := Next(BRIEF, [], Login("u", "f", "a", 0, 0)).table;
            var t2 := Next(BRIEF, t1, Refresh("a", "b", 1, 1, Active)).table;
            var t3 := Next(BRIEF, t2, Logout("b", "u", 2)).table;
            var r4 := Next(BRIEF, t3, Refresh("a", "c", 3, 3, Active));
            && Unrevoked(t3, "f") == 0
            && r4.outcome.Issued? && r4.event == Graced("f") && Unrevoked(r4.table, "f") == 1
  {
    TrapRefresh();
    TrapLogout();
    TrapGrace();
    UnrevokedOfRevoke([ROTATED, SECOND], "f", 2, "f");
    assert RevokeFamily([ROTATED, SECOND], "f", 2) == [ROTATED, ENDED];
    UnrevokedOfAppend([ROTATED, ENDED], THIRD, "f");
    assert [ROTATED, ENDED] + [THIRD] == [ROTATED, ENDED, THIRD];
  }

  lemma {:induction false} FindSecond(t1: Token, t2: Token)
    requires t1.hash != t2.hash
    ensures Find([t1], t1.hash) == Some(0) && Find([t1], t2.hash) == None
    ensures Find([t1, t2], t2.hash) == Some(1) && Find([t1, t2], t1.hash) == Some(0)
    ensures forall hash :: hash != t1.hash && hash != t2.hash ==> Find([t1, t2], hash) == None
  {
    assert [t1, t2][..1] == [t1] && [t1][..0] == [];
  }
}
