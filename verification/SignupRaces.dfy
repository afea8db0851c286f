/** Sign-up requests for one address that overlap: every command on the keys is a
    step of its own (internal/auth/signup.go). */
module SignupRaces {
  import opened Wrappers
  import SignupCodes

  const MAX_ATTEMPTS := SignupCodes.MAX_ATTEMPTS

  /** Where a verification stands: it has read a code, or has charged the counter and
      got this number back. */
  datatype Progress = HasRead(code: string) | HasCharged(code: string, attempts: nat)

  /** The keys of the address, the verifications under way, and what happened so far:
      which verifications got an attempt, which of them compared, with what code; how
      often the counter ended, and how often it had when a code was stored. */
  datatype Traffic = Traffic(
    code: Option<string>,
    attempts: nat,
    running: map<nat, Progress>,
    admitted: map<nat, string>,
    compared: set<nat>,
    ends: nat,
    storedAt: map<string, nat>)

  datatype Command =
    | StoreCode(code: string)
    | EndCode
    | EndCounter
    | ReadCode(id: nat)
    | Charge(id: nat)
    | Compare(id: nat)
    | Leave(id: nat)

  /** A new verification gets an id of its own, and a new code is a new one. */
  predicate Possible(w: Traffic, c: Command) {
    match c
    case StoreCode(code) => code !in w.storedAt
    case EndCode => true
    case EndCounter => true
    case ReadCode(id) => w.code.Some? && id !in w.running && id !in w.admitted && id !in w.compared
    case Charge(id) => id in w.running && w.running[id].HasRead? && id !in w.admitted
    case Compare(id) => id in w.running && w.running[id].HasCharged? && w.running[id].attempts <= MAX_ATTEMPTS
    case Leave(id) => id in w.running
  }

  /** A code is stored, or goes; the counter is deleted or runs out; a verification
      reads the code, charges the counter, compares the code it read, or ends. A
      missing counter counts from nothing. */
  function Next(w: Traffic, c: Command): Traffic
    requires Possible(w, c)
  {
    match c
    case StoreCode(code) => w.(code := Some(code), storedAt := w.storedAt[code := w.ends])
    case EndCode => w.(code := None)
    case EndCounter => w.(attempts := 0, ends := w.ends + 1)
    case ReadCode(id) => w.(running := w.running[id := HasRead(w.code.value)])
    case Charge(id) =>
      var code := w.running[id].code;
      w.(attempts := w.attempts + 1,
         running := w.running[id := HasCharged(code, w.attempts + 1)],
         admitted := if w.attempts + 1 <= MAX_ATTEMPTS then w.admitted[id := code] else w.admitted)
    case Compare(id) => w.(running := w.running - {id}, compared := w.compared + {id})
    case Leave(id) => w.(running := w.running - {id})
  }

  /** The verifications that got an attempt at this code. */
  function AdmittedTo(admitted: map<nat, string>, code: string): set<nat> {
    set id | id in admitted && admitted[id] == code
  }

  /** The verifications that compared this code. */
  function ComparedWith(w: Traffic, code: string): set<nat> {
    set id | id in w.compared && id in w.admitted && w.admitted[id] == code
  }

  function Used(w: Traffic): nat {
    if w.attempts <= MAX_ATTEMPTS then w.attempts else MAX_ATTEMPTS
  }

  /** Every code read was stored, whoever compares was admitted first, and a code gets
      at most five attempts in each life of the counter. */
  ghost predicate Inv(w: Traffic) {
    && (w.code.Some? ==> w.code.value in w.storedAt)
    && (forall id :: id in w.running ==> w.running[id].code in w.storedAt)
    && (forall id :: id in w.running && w.running[id].HasCharged? && w.running[id].attempts <= MAX_ATTEMPTS ==>
          id in w.admitted && w.admitted[id] == w.running[id].code)
    && (forall id :: id in w.compared ==> id in w.admitted)
    && (forall id :: id in w.admitted ==> w.admitted[id] in w.storedAt)
    && (forall code :: code in w.storedAt ==>
          w.storedAt[code] <= w.ends && |AdmittedTo(w.admitted, code)| <= MAX_ATTEMPTS * (w.ends - w.storedAt[code]) + Used(w))
  }

  lemma {:induction false} OneMoreAdmitted(admitted: map<nat, string>, id: nat, mine: string, code: string)
    requires id !in admitted
    ensures |AdmittedTo(admitted[id := mine], code)| == |AdmittedTo(admitted, code)| + if code == mine then 1 else 0
  {
    assert AdmittedTo(admitted[id := mine], code) == AdmittedTo(admitted, code) + if code == mine then {id} else {};
  }

  /** An attempt given is one more used. */
  lemma {:induction false} ChargeCounts(w: Traffic, id: nat, code: string)
    requires Possible(w, Charge(id))
    ensures var w' := Next(w, Charge(id));
            |AdmittedTo(w'.admitted, code)| - |AdmittedTo(w.admitted, code)| <= Used(w') - Used(w)
  {
    OneMoreAdmitted(w.admitted, id, w.running[id].code, code);
  }

  lemma {:induction false} ChargeKeepsInv(w: Traffic, id: nat)
    requires Inv(w) && Possible(w, Charge(id))
    ensures Inv(Next(w, Charge(id)))
  {
    var w' := Next(w, Charge(id));
    forall code | code in w'.storedAt
      ensures |AdmittedTo(w'.admitted, code)| <= MAX_ATTEMPTS * (w'.ends - w'.storedAt[code]) + Used(w')
    {
      ChargeCounts(w, id, code);
    }
  }

  lemma {:induction false} OtherCommandsKeepInv(w: Traffic, c: Command)
    requires Inv(w) && Possible(w, c) && !c.Charge?
    ensures Inv(Next(w, c))
  {
    var w' := Next(w, c);
    assert w'.admitted == w.admitted;
    forall code | code in w'.storedAt
      ensures w'.storedAt[code] <= w'.ends
      ensures |AdmittedTo(w'.admitted, code)| <= MAX_ATTEMPTS * (w'.ends - w'.storedAt[code]) + Used(w')
    {
      assert AdmittedTo(w'.admitted, code) == AdmittedTo(w.admitted, code);
      if code !in w.storedAt {
        assert AdmittedTo(w.admitted, code) == {};
      }
    }
  }

  const NOTHING_YET := Traffic(None, 0, map[], map[], {}, 0, map[])

  /** Possible one after the other, from the first. */
  ghost predicate IsRun(w: Traffic, commands: seq<Command>)
    decreases |commands|
  {
    commands == [] || (Possible(w, commands[0]) && IsRun(Next(w, commands[0]), commands[1..]))
  }

  ghost function After(w: Traffic, commands: seq<Command>): Traffic
    requires IsRun(w, commands)
    decreases |commands|
  {
    if commands == [] then w else After(Next(w, commands[0]), commands[1..])
  }

  lemma {:induction false} RunKeepsInv(w: Traffic, commands: seq<Command>)
    requires Inv(w) && IsRun(w, commands)
    ensures Inv(After(w, commands))
    decreases |commands|
  {
    if commands != [] {
      if commands[0].Charge? {
        ChargeKeepsInv(w, commands[0].id);
      } else {
        OtherCommandsKeepInv(w, commands[0]);
      }
      RunKeepsInv(Next(w, commands[0]), commands[1..]);
    }
  }

  lemma {:induction false} SubsetSize(part: set<nat>, whole: set<nat>)
    requires part <= whole
    ensures |part| <= |whole|
  {
    assert whole == part + (whole - part);
  }

  /** However the commands of any number of requests interleave, a code is compared at
      most five times in each life of the counter that it sees: at most five times in
      all if the counter never ended since the code was stored, five more for each time
      it did. */
  lemma {:induction false} GuessesPerLife(commands: seq<Command>, code: string)
    requires IsRun(NOTHING_YET, commands) && code in After(NOTHING_YET, commands).storedAt
    ensures var w := After(NOTHING_YET, commands);
            |ComparedWith(w, code)| <= MAX_ATTEMPTS * (1 + w.ends - w.storedAt[code])
  {
    RunKeepsInv(NOTHING_YET, commands);
    var w := After(NOTHING_YET, commands);
    SubsetSize(ComparedWith(w, code), AdmittedTo(w.admitted, code));
  }

  // ---- a concrete run

  lemma {:induction false} RunThenRun(w: Traffic, first: seq<Command>, second: seq<Command>)
    requires IsRun(w, first) && IsRun(After(w, first), second)
    ensures IsRun(w, first + second) && After(w, first + second) == After(After(w, first), second)
    decreases |first|
  {
    if first == [] {
      assert first + second == second;
    } else {
      RunThenRun(Next(w, first[0]), first[1..], second);
      assert (first + second)[1..] == first[1..] + second;
    }
  }

  lemma {:induction false} RunOfOne(w: Traffic, c: Command)
    requires Possible(w, c)
    ensures IsRun(w, [c]) && After(w, [c]) == Next(w, c)
  {
    assert [c][1..] == [];
  }

  /** One guess: it reads the code, charges the counter and compares. */
  lemma {:induction false} OneGuess(w: Traffic, id: nat, code: string) returns (commands: seq<Command>)
    requires w.code == Some(code) && w.attempts < MAX_ATTEMPTS && id !in w.running && id !in w.admitted && id !in w.compared
    ensures IsRun(w, commands)
    ensures After(w, commands) == w.(attempts := w.attempts + 1, admitted := w.admitted[id := code], compared := w.compared + {id})
  {
    var w1 := Next(w, ReadCode(id));
    var w2 := Next(w1, Charge(id));
    RunOfOne(w, ReadCode(id));
    RunOfOne(w1, Charge(id));
    RunOfOne(w2, Compare(id));
    RunThenRun(w1, [Charge(id)], [Compare(id)]);
    RunThenRun(w, [ReadCode(id)], [Charge(id)] + [Compare(id)]);
    commands := [ReadCode(id)] + ([Charge(id)] + [Compare(id)]);
    assert Next(w2, Compare(id)).running == w.running;
  }

  /** From base, verifications 1 to n have compared the stored code. */
  ghost predicate Guessed(base: Traffic, w: Traffic, n: nat, code: string) {
    && w == base.(attempts := n, admitted := w.admitted, compared := w.compared)
    && w.compared == w.admitted.Keys && |w.compared| == n
    && (forall id :: id in w.admitted ==> id <= n && w.admitted[id] == code)
  }

  lemma {:induction false} OneMoreGuessed(base: Traffic, w: Traffic, n: nat, code: string)
    requires Guessed(base, w, n, code)
    ensures Guessed(base, w.(attempts := n + 1, admitted := w.admitted[n + 1 := code], compared := w.compared + {n + 1}), n + 1, code)
  {
    assert n + 1 !in w.compared;
    assert w.admitted[n + 1 := code].Keys == w.admitted.Keys + {n + 1};
  }

  /** n guesses, one after the other, at a stored code, while a verification that read it
      waits. */
  lemma {:induction false} SomeGuesses(base: Traffic, n: nat, code: string, waiting: nat) returns (commands: seq<Command>)
    requires n <= MAX_ATTEMPTS && waiting > MAX_ATTEMPTS
    requires base == Traffic(Some(code), 0, map[waiting := HasRead(code)], map[], {}, 0, map[code := 0])
    ensures IsRun(base, commands) && Guessed(base, After(base, commands), n, code)
  {
    if n == 0 {
      commands := [];
    } else {
      var before := SomeGuesses(base, n - 1, code, waiting);
      var w := After(base, before);
      var guess := OneGuess(w, n, code);
      OneMoreGuessed(base, w, n - 1, code);
      RunThenRun(base, before, guess);
      commands := before + guess;
    }
  }

  /** One verification has read code a when five guesses at it are made; then b is sent
      and the counter reset, and the first one charges the fresh counter. */
  lemma {:induction false} OldCodeComparedAgain(a: string, b: string) returns (commands: seq<Command>)
    requires a != b
    ensures IsRun(NOTHING_YET, commands)
    ensures var w := After(NOTHING_YET, commands);
            a in w.storedAt && |ComparedWith(w, a)| == MAX_ATTEMPTS + 1 && w.ends == 1 && w.code == Some(b)
  {
    var late := MAX_ATTEMPTS + 1;
    var w0 := Next(NOTHING_YET, StoreCode(a));
    var w1 := Next(w0, ReadCode(late));
    RunOfOne(NOTHING_YET, StoreCode(a));
    RunOfOne(w0, ReadCode(late));
    RunThenRun(NOTHING_YET, [StoreCode(a)], [ReadCode(late)]);
    var guesses := SomeGuesses(w1, MAX_ATTEMPTS, a, late);
    RunThenRun(NOTHING_YET, [StoreCode(a)] + [ReadCode(late)], guesses);
    commands := [StoreCode(a)] + [ReadCode(late)] + guesses;
    var more := Overtake(After(NOTHING_YET, commands), a, b, late);
    RunThenRun(NOTHING_YET, commands, more);
    commands := commands + more;
  }

  /** The waiting verification gets an attempt of the new code's. */
  lemma {:induction false} Overtake(w: Traffic, a: string, b: string, late: nat) returns (commands: seq<Command>)
    requires b !in w.storedAt && late in w.running && w.running[late] == HasRead(a) && late !in w.admitted
    requires w.compared == w.admitted.Keys && forall id :: id in w.admitted ==> w.admitted[id] == a
    ensures IsRun(w, commands)
    ensures var w' := After(w, commands);
            && w'.code == Some(b) && w'.ends == w.ends + 1 && w'.storedAt == w.storedAt[b := w.ends]
            && |ComparedWith(w', a)| == |w.compared| + 1
  {
    var w1 := Next(w, StoreCode(b));
    var w2 := Next(w1, EndCounter);
    var w3 := Next(w2, Charge(late));
    RunOfOne(w, StoreCode(b));
    RunOfOne(w1, EndCounter);
    RunOfOne(w2, Charge(late));
    RunOfOne(w3, Compare(late));
    RunThenRun(w2, [Charge(late)], [Compare(late)]);
    RunThenRun(w1, [EndCounter], [Charge(late)] + [Compare(late)]);
    RunThenRun(w, [StoreCode(b)], [EndCounter] + ([Charge(late)] + [Compare(late)]));
    commands := [StoreCode(b)] + ([EndCounter] + ([Charge(late)] + [Compare(late)]));
    assert ComparedWith(Next(w3, Compare(late)), a) == w.compared + {late};
  }
}
