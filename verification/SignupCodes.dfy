/** The one-time codes of a sign-up: how often a code can be guessed and how
    many can be sent, over keys that expire (internal/auth/signup.go). */
module SignupCodes {
  import opened Wrappers

  const MAX_ATTEMPTS := 5
  const MAX_SENDS := 5

  /** Durations and times in milliseconds. */
  datatype Config = Config(codeTTL: int, cooldown: int, hour: int)

  /** A stored value with its expiry, if it has one. */
  datatype Slot<T> = Slot(value: T, expires: Option<int>)

  /** The keys of one address. */
  datatype Keys = Keys(code: Option<Slot<string>>, attempts: Option<Slot<nat>>, cooldown: Option<Slot<string>>, sends: Option<Slot<nat>>)

  predicate Alive<T>(slot: Option<Slot<T>>, now: int) {
    slot.Some? && (slot.value.expires.Some? ==> now < slot.value.expires.value)
  }

  /** Increments a counter; an expired or missing one starts over. */
  function Incremented(slot: Option<Slot<nat>>, now: int): Slot<nat> {
    if Alive(slot, now) then slot.value.(value := slot.value.value + 1) else Slot(1, None)
  }

  /** What the environment does to a request: whether the address is registered
      already, and which of the writes nobody waits for are lost. */
  datatype Weather = Weather(registered: bool, expireSends: bool, expireAttempts: bool, forgetAttempts: bool, forgetCode: bool)

  datatype Outcome = RateLimited | NothingSent | Sent | InvalidCode | Verified

  // ---- the two requests

  function StartStep(cfg: Config, keys: Keys, now: int, digest: string, env: Weather): (Keys, Outcome) {
    if Alive(keys.cooldown, now) then (keys, RateLimited)
    else
      var counted := Incremented(keys.sends, now);
      var sends := if counted.value == 1 && env.expireSends then counted.(expires := Some(now + cfg.hour)) else counted;
      var keys1 := keys.(cooldown := Some(Slot("1", Some(now + cfg.cooldown))), sends := Some(sends));
      if sends.value > MAX_SENDS then (keys1, RateLimited)
      else if env.registered then (keys1, NothingSent)
      else (keys1.(code := Some(Slot(digest, Some(now + cfg.codeTTL))), attempts := if env.forgetAttempts then None else keys.attempts), Sent)
  }

  /** The code is compared with the guess. */
  predicate Compares(keys: Keys, now: int) {
    Alive(keys.code, now) && Incremented(keys.attempts, now).value <= MAX_ATTEMPTS
  }

  function VerifyStep(cfg: Config, keys: Keys, now: int, digest: string, env: Weather): (Keys, Outcome) {
    if !Alive(keys.code, now) then (keys, InvalidCode)
    else
      var counted := Incremented(keys.attempts, now);
      var attempts := if counted.value == 1 && env.expireAttempts then counted.(expires := Some(now + cfg.codeTTL)) else counted;
      var keys1 := keys.(attempts := Some(attempts));
      var gone := if env.forgetCode then keys1.(code := None, attempts := None) else keys1;
      if attempts.value > MAX_ATTEMPTS then (gone, InvalidCode)
      else if keys.code.value.value != digest then (keys1, InvalidCode)
      else (gone, Verified)
  }

  // ---- what a request gets

  /** How often a counter has counted, once more. */
  function Once(slot: Option<Slot<nat>>, now: int): nat {
    if slot.Some? && (slot.value.expires.None? || now < slot.value.expires.value) then slot.value.value + 1 else 1
  }

  /** A start is refused while the cooldown of the last one runs, and from the sixth of an
      hour on; nothing is sent to an address that is registered; otherwise a code goes out. */
  lemma {:induction false} StartAnswers(cfg: Config, keys: Keys, now: int, digest: string, env: Weather)
    ensures var (keys', outcome) := StartStep(cfg, keys, now, digest, env);
            var cooling := keys.cooldown.Some? && (keys.cooldown.value.expires.None? || now < keys.cooldown.value.expires.value);
            && (outcome == RateLimited <==> cooling || Once(keys.sends, now) > 5)
            && (outcome == NothingSent <==> !cooling && Once(keys.sends, now) <= 5 && env.registered)
            && (outcome == Sent <==> !cooling && Once(keys.sends, now) <= 5 && !env.registered)
            && (cooling ==> keys' == keys)
            && (!cooling ==>
                  && keys'.cooldown.Some? && keys'.cooldown.value.expires == Some(now + cfg.cooldown)
                  && keys'.sends.Some? && keys'.sends.value.value == Once(keys.sends, now)
                  && (Once(keys.sends, now) == 1 && env.expireSends ==> keys'.sends.value.expires == Some(now + cfg.hour))
                  && (Once(keys.sends, now) > 1 ==> keys'.sends.value.expires == keys.sends.value.expires))
            && (outcome == Sent ==>
                  keys'.code == Some(Slot(digest, Some(now + cfg.codeTTL)))
                  && keys'.attempts == if env.forgetAttempts then None else keys.attempts)
            && (outcome != Sent ==> keys'.code == keys.code && keys'.attempts == keys.attempts)
  {
  }

  /** After a start that was let through, no other is until the cooldown is over. */
  lemma {:induction false} CooldownHolds(cfg: Config, keys: Keys, now: int, digest: string, env: Weather, later: int, digest2: string, env2: Weather)
    requires StartStep(cfg, keys, now, digest, env).1 != RateLimited && now <= later < now + cfg.cooldown
    ensures var keys' := StartStep(cfg, keys, now, digest, env).0;
            StartStep(cfg, keys', later, digest2, env2) == (keys', RateLimited)
  {
  }

  /** A guess succeeds exactly when it is the code that was sent, the code has not run out,
      and it is among the first five counted; every guess at a live code is counted, and the
      code goes with a success and with the sixth guess. */
  lemma {:induction false} VerifyAnswers(cfg: Config, keys: Keys, now: int, digest: string, env: Weather)
    ensures var (keys', outcome) := VerifyStep(cfg, keys, now, digest, env);
            var live := keys.code.Some? && (keys.code.value.expires.None? || now < keys.code.value.expires.value);
            && (outcome == Verified <==> live && Once(keys.attempts, now) <= 5 && keys.code.value.value == digest)
            && (outcome == InvalidCode <==> !(live && Once(keys.attempts, now) <= 5 && keys.code.value.value == digest))
            && keys'.cooldown == keys.cooldown && keys'.sends == keys.sends
            && (!live ==> keys' == keys)
            && (live && (outcome == Verified || Once(keys.attempts, now) > 5) && env.forgetCode ==> keys'.code.None? && keys'.attempts.None?)
            && (live && !((outcome == Verified || Once(keys.attempts, now) > 5) && env.forgetCode) ==>
                  && keys'.code == keys.code && keys'.attempts.Some? && keys'.attempts.value.value == Once(keys.attempts, now)
                  && (Once(keys.attempts, now) == 1 && env.expireAttempts ==> keys'.attempts.value.expires == Some(now + cfg.codeTTL))
                  && (Once(keys.attempts, now) > 1 ==> keys'.attempts.value.expires == keys.attempts.value.expires))
  {
  }

  // ---- the service over its keys

  class Signup {
    var keys: Keys
    const cfg: Config

    constructor (cfg: Config)
      ensures keys == Keys(None, None, None, None) && this.cfg == cfg
    {
      keys := Keys(None, None, None, None);
      this.cfg := cfg;
    }

    method StartSignup(now: int, digest: string, env: Weather) returns (outcome: Outcome)
      modifies this
      ensures (keys, outcome) == StartStep(cfg, old(keys), now, digest, env)
    {
      if Alive(keys.cooldown, now) {
        return RateLimited;
      }
      keys := keys.(cooldown := Some(Slot("1", Some(now + cfg.cooldown))));
      keys := keys.(sends := Some(Incremented(keys.sends, now)));
      var sends := keys.sends.value.value;
      if sends == 1 && env.expireSends {
        keys := keys.(sends := Some(Slot(sends, Some(now + cfg.hour))));
      }
      if sends > MAX_SENDS {
        return RateLimited;
      }
      if env.registered {
        return NothingSent;
      }
      keys := keys.(code := Some(Slot(digest, Some(now + cfg.codeTTL))));
      if env.forgetAttempts {
        keys := keys.(attempts := None);
      }
      outcome := Sent;
    }

    method VerifySignupOTP(now: int, digest: string, env: Weather) returns (outcome: Outcome)
      modifies this
      ensures (keys, outcome) == VerifyStep(cfg, old(keys), now, digest, env)
    {
      if !Alive(keys.code, now) {
        return InvalidCode;
      }
      var stored := keys.code.value.value;
      keys := keys.(attempts := Some(Incremented(keys.attempts, now)));
      var attempts := keys.attempts.value.value;
      if attempts == 1 && env.expireAttempts {
        keys := keys.(attempts := Some(Slot(attempts, Some(now + cfg.codeTTL))));
      }
      if attempts > MAX_ATTEMPTS {
        if env.forgetCode {
          keys := keys.(code := None, attempts := None);
        }
        return InvalidCode;
      }
      if stored != digest {
        return InvalidCode;
      }
      if env.forgetCode {
        keys := keys.(code := None, attempts := None);
      }
      outcome := Verified;
    }
  }

  // ---- whole runs for one address

  datatype Step =
    | Start(now: int, digest: string, env: Weather)
    | Verify(now: int, digest: string, env: Weather)

  /** The keys, the comparisons made with the latest code and when it was sent,
      and the codes sent while the current send counter is alive. */
  datatype World = World(keys: Keys, compared: nat, sentAt: int, sent: nat)

  function Next(cfg: Config, w: World, step: Step): World {
    match step
    case Start(now, digest, env) =>
      var (keys, outcome) := StartStep(cfg, w.keys, now, digest, env);
      var sentBefore := if Alive(w.keys.sends, now) then w.sent else 0;
      if outcome == Sent then World(keys, 0, now, sentBefore + 1)
      else World(keys, w.compared, w.sentAt, if outcome == RateLimited && Alive(w.keys.cooldown, now) then w.sent else sentBefore)
    case Verify(now, digest, env) =>
      World(VerifyStep(cfg, w.keys, now, digest, env).0, w.compared + if Compares(w.keys, now) then 1 else 0, w.sentAt, w.sent)
  }

  /** The old attempts counter is alive, has attempts left and runs out before
      a code sent now does. */
  predicate RunsOutUnder(cfg: Config, attempts: Option<Slot<nat>>, now: int) {
    && Alive(attempts, now)
    && attempts.value.value < MAX_ATTEMPTS
    && attempts.value.expires.Some? && attempts.value.expires.value < now + cfg.codeTTL
  }

  /** Nothing was compared yet, and the old counter is dead or used up. */
  predicate Untouched(w: World, now: int) {
    w.compared == 0 && (!Alive(w.keys.attempts, now) || w.keys.attempts.value.value >= MAX_ATTEMPTS)
  }

  /** The counter lives as long as the code and counts at least its comparisons. */
  predicate Counted(cfg: Config, w: World) {
    && w.keys.attempts.Some?
    && w.compared <= w.keys.attempts.value.value
    && (w.keys.attempts.value.expires.Some? ==> w.keys.attempts.value.expires.value >= w.sentAt + cfg.codeTTL)
  }

  /** What keeps the comparisons of the latest code at five. */
  ghost predicate Guarded(cfg: Config, w: World, now: int) {
    && w.compared <= MAX_ATTEMPTS
    && w.sentAt <= now
    && (w.keys.code.Some? ==> w.keys.code.value.expires == Some(w.sentAt + cfg.codeTTL))
    && (w.keys.code.Some? ==> Untouched(w, now) || Counted(cfg, w))
  }

  ghost predicate FewSent(w: World) {
    && w.sent <= MAX_SENDS
    && (w.keys.sends.Some? ==> w.sent <= w.keys.sends.value.value)
    && (w.keys.sends.None? ==> w.sent == 0)
  }

  /** If the step sends a code, it resets the attempts of the one before, or the
      counter left over does not run out under the new code. */
  predicate Safe(cfg: Config, w: World, step: Step) {
    step.Start? && StartStep(cfg, w.keys, step.now, step.digest, step.env).1 == Sent ==>
      step.env.forgetAttempts || !RunsOutUnder(cfg, w.keys.attempts, step.now)
  }

  lemma {:induction false} StartIsGuarded(cfg: Config, w: World, before: int, step: Step)
    requires cfg.codeTTL > 0 && Guarded(cfg, w, before) && before <= step.now && Safe(cfg, w, step) && step.Start?
    ensures Guarded(cfg, Next(cfg, w, step), step.now)
  {
    var w' := Next(cfg, w, step);
    assert w'.keys.code.Some? ==> Untouched(w', step.now) || Counted(cfg, w');
  }

  lemma {:induction false} VerifyIsGuarded(cfg: Config, w: World, before: int, step: Step)
    requires cfg.codeTTL > 0 && Guarded(cfg, w, before) && before <= step.now && step.Verify?
    ensures Guarded(cfg, Next(cfg, w, step), step.now)
  {
    var w' := Next(cfg, w, step);
    assert w'.keys.code.Some? ==> Untouched(w', step.now) || Counted(cfg, w');
  }

  lemma {:induction false} StepIsGuarded(cfg: Config, w: World, before: int, step: Step)
    requires cfg.codeTTL > 0 && Guarded(cfg, w, before) && before <= step.now && Safe(cfg, w, step)
    ensures Guarded(cfg, Next(cfg, w, step), step.now)
  {
    if step.Start? {
      StartIsGuarded(cfg, w, before, step);
    } else {
      VerifyIsGuarded(cfg, w, before, step);
    }
  }

  lemma StepSendsFew(cfg: Config, w: World, step: Step)
    requires FewSent(w)
    ensures FewSent(Next(cfg, w, step))
  {
  }

  /** The world after some steps. */
  function RunFrom(cfg: Config, w: World, steps: seq<Step>): World {
    if steps == [] then w else Next(cfg, RunFrom(cfg, w, steps[..|steps| - 1]), steps[|steps| - 1])
  }

  /** The clock of the steps starts at a time and never goes back. */
  predicate Ticks(steps: seq<Step>, from: int) {
    && (forall k :: 0 <= k < |steps| ==> from <= steps[k].now)
    && (forall j, k :: 0 <= j <= k < |steps| ==> steps[j].now <= steps[k].now)
  }

  predicate AllSafe(cfg: Config, w: World, steps: seq<Step>) {
    forall k :: 0 <= k < |steps| ==> Safe(cfg, RunFrom(cfg, w, steps[..k]), steps[k])
  }

  lemma {:induction false} RunIsGuarded(cfg: Config, w: World, from: int, steps: seq<Step>)
    requires cfg.codeTTL > 0 && Guarded(cfg, w, from) && Ticks(steps, from) && AllSafe(cfg, w, steps)
    ensures Guarded(cfg, RunFrom(cfg, w, steps), if steps == [] then from else steps[|steps| - 1].now)
  {
    if steps != [] {
      var front := steps[..|steps| - 1];
      forall k | 0 <= k < |front|
        ensures Safe(cfg, RunFrom(cfg, w, front[..k]), front[k])
      {
        assert front[..k] == steps[..k];
      }
      RunIsGuarded(cfg, w, from, front);
      StepIsGuarded(cfg, RunFrom(cfg, w, front), if front == [] then from else front[|front| - 1].now, steps[|steps| - 1]);
    }
  }

  lemma {:induction false} RunSendsFew(cfg: Config, w: World, steps: seq<Step>)
    requires FewSent(w)
    ensures FewSent(RunFrom(cfg, w, steps))
  {
    if steps != [] {
      RunSendsFew(cfg, w, steps[..|steps| - 1]);
      StepSendsFew(cfg, RunFrom(cfg, w, steps[..|steps| - 1]), steps[|steps| - 1]);
    }
  }

  const NOTHING := World(Keys(None, None, None, None), 0, 0, 0)

  /** Whatever is requested, in whatever order: no code is ever compared more
      than five times, and no more than five codes go out while one send counter
      lives. Clean-up writes and expiries may be lost, and a reset too where the
      counter it leaves does not run out under the new code. */
  lemma {:induction false} GuessesAreBounded(cfg: Config, steps: seq<Step>)
    requires cfg.codeTTL > 0 && Ticks(steps, 0) && AllSafe(cfg, NOTHING, steps)
    ensures RunFrom(cfg, NOTHING, steps).compared <= MAX_ATTEMPTS && RunFrom(cfg, NOTHING, steps).sent <= MAX_SENDS
  {
    RunIsGuarded(cfg, NOTHING, 0, steps);
    RunSendsFew(cfg, NOTHING, steps);
  }

  // ---- when a lost reset lets a sixth comparison through

  /** A continuation in which codes sent later do reset the attempts. */
  predicate Continues(steps: seq<Step>, from: int) {
    Ticks(steps, from) && forall k :: 0 <= k < |steps| && steps[k].Start? ==> steps[k].env.forgetAttempts
  }

  /** A guess whose writes are all made. */
  const CLEAR := Weather(false, true, true, true, true)

  function Guess(now: int, digest: string): Step {
    Verify(now, digest, CLEAR.(expireAttempts := false))
  }

  function LateGuess(now: int, digest: string): Step {
    Verify(now, digest, CLEAR)
  }

  /** A wrong guess at a live code that is compared. */
  lemma WrongGuess(cfg: Config, w: World, step: Step)
    requires step.Verify? && Compares(w.keys, step.now) && w.keys.code.value.value != step.digest
    ensures var w', counted := Next(cfg, w, step), Incremented(w.keys.attempts, step.now);
            && w'.compared == w.compared + 1 && w'.keys.code == w.keys.code
            && w'.keys.attempts == Some(if counted.value == 1 && step.env.expireAttempts then counted.(expires := Some(step.now + cfg.codeTTL)) else counted)
  {
  }

  /** n guesses at time e, the first of which finds the counter dead. */
  lemma {:induction false} GuessesAfterExpiry(cfg: Config, w: World, e: int, digest: string, n: nat)
    requires cfg.codeTTL > 0 && n <= MAX_ATTEMPTS
    requires Alive(w.keys.code, e) && w.keys.code.value.value != digest && !Alive(w.keys.attempts, e)
    ensures var w' := RunFrom(cfg, w, seq(n, _ => LateGuess(e, digest)));
            && w'.compared == w.compared + n && w'.keys.code == w.keys.code
            && (n > 0 ==> w'.keys.attempts == Some(Slot(n, Some(e + cfg.codeTTL))))
            && (n == 0 ==> w' == w)
  {
    if n > 0 {
      var steps := seq(n, _ => LateGuess(e, digest));
      GuessesAfterExpiry(cfg, w, e, digest, n - 1);
      assert steps[..n - 1] == seq(n - 1, _ => LateGuess(e, digest));
      WrongGuess(cfg, RunFrom(cfg, w, steps[..n - 1]), steps[n - 1]);
    }
  }

  lemma {:induction false} RunThenRun(cfg: Config, w: World, first: seq<Step>, second: seq<Step>)
    ensures RunFrom(cfg, w, first + second) == RunFrom(cfg, RunFrom(cfg, w, first), second)
  {
    if second == [] {
      assert first + second == first;
    } else {
      RunThenRun(cfg, w, first, second[..|second| - 1]);
      assert (first + second)[..|first + second| - 1] == first + second[..|second| - 1];
    }
  }

  /** One guess before the old counter runs out and five after it. */
  lemma {:induction false} SixGuesses(cfg: Config, w: World, now: int, digest: string) returns (steps: seq<Step>)
    requires cfg.codeTTL > 0 && w.compared == 0 && RunsOutUnder(cfg, w.keys.attempts, now)
    requires w.keys.code == Some(Slot(digest, Some(now + cfg.codeTTL)))
    ensures Continues(steps, now) && RunFrom(cfg, w, steps).compared > MAX_ATTEMPTS
  {
    var e, wrong := w.keys.attempts.value.expires.value, digest + "x";
    var one, five := [Guess(now, wrong)], seq(MAX_ATTEMPTS, _ => LateGuess(e, wrong));
    assert digest != wrong;
    WrongGuess(cfg, w, one[0]);
    assert one[..0] == [] && RunFrom(cfg, w, one) == Next(cfg, w, one[0]);
    GuessesAfterExpiry(cfg, RunFrom(cfg, w, one), e, wrong, MAX_ATTEMPTS);
    RunThenRun(cfg, w, one, five);
    steps := one + five;
  }

  lemma {:induction false} ContinuationIsSafe(cfg: Config, w: World, from: int, steps: seq<Step>)
    requires Continues(steps, from)
    ensures AllSafe(cfg, w, steps)
  {
  }

  /** A code sent while the reset is lost can be compared a sixth time, in some
      continuation in which later codes do reset, if and only if the counter
      left over is alive, has attempts left, and runs out under the code. */
  lemma {:induction false} SixthComparisonIff(cfg: Config, w: World, now: int, digest: string, env: Weather)
    requires cfg.codeTTL > 0
    requires StartStep(cfg, w.keys, now, digest, env).1 == Sent && !env.forgetAttempts
    ensures var sent := Next(cfg, w, Start(now, digest, env));
            (exists steps :: Continues(steps, now) && RunFrom(cfg, sent, steps).compared > MAX_ATTEMPTS) <==>
            RunsOutUnder(cfg, w.keys.attempts, now)
  {
    var sent := Next(cfg, w, Start(now, digest, env));
    if RunsOutUnder(cfg, w.keys.attempts, now) {
      var steps := SixGuesses(cfg, sent, now, digest);
    } else {
      assert Guarded(cfg, sent, now);
      forall steps | Continues(steps, now)
        ensures RunFrom(cfg, sent, steps).compared <= MAX_ATTEMPTS
      {
        ContinuationIsSafe(cfg, sent, now, steps);
        RunIsGuarded(cfg, sent, now, steps);
      }
    }
  }

  /** A code is accepted only while it is alive, for the very digest that was
      sent, and unless the clean-up is lost it is gone afterwards. */
  lemma CodesAreSingleUse(cfg: Config, keys: Keys, now: int, digest: string, env: Weather, later: int, again: string, env2: Weather)
    requires VerifyStep(cfg, keys, now, digest, env).1 == Verified
    ensures Alive(keys.code, now) && keys.code.value.value == digest
    ensures env.forgetCode ==> VerifyStep(cfg, VerifyStep(cfg, keys, now, digest, env).0, later, again, env2).1 == InvalidCode
  {
  }

  // ---- a concrete run

  const BRIEF := Config(100, 10, 1000)

  const FIRST_CODE := Start(0, "a", CLEAR)
  const FIRST_GUESS := LateGuess(1, "x")
  const LOST_RESET := CLEAR.(forgetAttempts := false)

  lemma {:induction false} CounterLeftOver()
    ensures var w := RunFrom(BRIEF, NOTHING, [FIRST_CODE, FIRST_GUESS]);
            && w.keys.attempts == Some(Slot(1, Some(101)))
            && StartStep(BRIEF, w.keys, 50, "b", LOST_RESET).1 == Sent
  {
    assert [FIRST_CODE, FIRST_GUESS][..1] == [FIRST_CODE] && [FIRST_CODE][..0] == [];
    var w1 := Next(BRIEF, NOTHING, FIRST_CODE);
    assert RunFrom(BRIEF, NOTHING, [FIRST_CODE]) == w1;
    WrongGuess(BRIEF, w1, FIRST_GUESS);
  }

  /** A code is sent and guessed at once; its successor is sent with the reset
      lost, and the old counter runs out under it: a sixth comparison follows. */
  lemma {:induction false} LostResetAllowsMore()
    ensures var before := RunFrom(BRIEF, NOTHING, [FIRST_CODE, FIRST_GUESS]);
            exists steps :: Continues(steps, 50) && RunFrom(BRIEF, Next(BRIEF, before, Start(50, "b", LOST_RESET)), steps).compared > MAX_ATTEMPTS
  {
    CounterLeftOver();
    SixthComparisonIff(BRIEF, RunFrom(BRIEF, NOTHING, [FIRST_CODE, FIRST_GUESS]), 50, "b", LOST_RESET);
  }
}
