/**
 The persisted nonce of `crates/broker-adapters/src/nonce.rs`: callers in one process share a
 lock per path; `advance` reads the file, computes, writes a temporary file, syncs it, renames
 it over the target and only then hands the nonce out.  Every file operation is one step and
 may fail; the process may crash at any step, losing all callers and the lock and leaving
 anything in the temporary file.  The clock is arbitrary.  Rename is atomic and durable.
 */
module NonceStore {
  import opened Wrappers
  import opened Digits

  const U64_MAX: nat := 0xFFFF_FFFF_FFFF_FFFF

  datatype NonceError = Io | Corrupt | Exhausted

  /** A nonce that may follow: at least 1, not before the clock, above the last one. */
  predicate Permitted(m: nat, candidate: nat, last: Option<nat>) {
    1 <= m && candidate <= m && (last.Some? ==> last.value < m)
  }

  /** The core rule: max(candidate, last + 1), never below 1. */
  function NextAfter(candidate: nat, last: Option<nat>): (r: Result<nat, NonceError>)
    ensures r.Ok? ==> 1 <= r.value && candidate <= r.value && (last.Some? ==> last.value < r.value)
    ensures r.Ok? && candidate <= U64_MAX ==> r.value <= U64_MAX
    ensures r.Ok? ==> forall m: nat :: Permitted(m, candidate, last) ==> r.value <= m
    ensures r.Err? <==> last.Some? && last.value >= U64_MAX
  {
    if last.Some? && last.value >= U64_MAX then Err(Exhausted)
    else
      var floor := if last.Some? then last.value + 1 else 1;
      Ok(if candidate >= floor then candidate else floor)
  }

  class InMemoryNonceStore {
    var last: Option<nat>

    constructor (last: Option<nat>)
      ensures this.last == last
    {
      this.last := last;
    }

    method Advance(candidate: nat) returns (r: Result<nat, NonceError>)
      modifies this
      ensures r == NextAfter(candidate, old(last))
      ensures last == if r.Ok? then Some(r.value) else old(last)
      ensures r.Ok? ==> Permitted(r.value, candidate, old(last))
      ensures r.Ok? ==> forall m: nat :: Permitted(m, candidate, old(last)) ==> r.value <= m
      ensures r.Err? <==> old(last).Some? && old(last).value >= U64_MAX
    {
      r := NextAfter(candidate, last);
      if r.Ok? {
        last := Some(r.value);
      }
    }
  }

  // ---------------------------------------------------------------- the file's text

  function Text(n: nat): string { ToDigits(n) + ['\n'] }

  /** `str::parse::<u64>`: an optional plus sign, at least one digit, in range. */
  function ParseU64(s: string): Option<nat> {
    var digits := if s != [] && s[0] == '+' then s[1..] else s;
    if digits == [] || !AllDigits(digits) || ValueOf(digits) > U64_MAX then None else Some(ValueOf(digits))
  }

  function Read(file: Option<string>): Result<Option<nat>, NonceError> {
    match file
    case None => Ok(None)
    case Some(text) =>
      match ParseU64(Trim(text))
      case None => Err(Corrupt)
      case Some(n) => Ok(Some(n))
  }

  /** `text`, without surrounding white space, spells `n`. */
  ghost predicate SpellsU64(text: string, digits: string, n: nat) {
    && (Trim(text) == digits || Trim(text) == ['+'] + digits)
    && digits != [] && AllDigits(digits) && ValueOf(digits) == n <= U64_MAX
  }

  /** No file is no nonce yet; a file is read exactly when it spells a 64-bit number; anything else is corrupt. */
  lemma ReadOutcome(file: Option<string>, n: nat)
    ensures Read(file) == Ok(None) <==> file.None?
    ensures Read(file) == Ok(Some(n)) <==> file.Some? && exists digits :: SpellsU64(file.value, digits, n)
    ensures Read(file).Err? ==> Read(file) == Err(Corrupt)
  {
    if file.Some? {
      var t := Trim(file.value);
      var digits := if t != [] && t[0] == '+' then t[1..] else t;
      assert t == digits || t == ['+'] + digits;
      if Read(file) == Ok(Some(n)) { assert SpellsU64(file.value, digits, n); }
      forall other | SpellsU64(file.value, other, n) ensures other == digits {
        assert other[0] != '+';
        assert (['+'] + other)[1..] == other;
      }
    }
  }

  /** What is written is what is read back. */
  lemma ReadBack(n: nat)
    requires n <= U64_MAX
    ensures Read(Some(Text(n))) == Ok(Some(n))
  {
    var digits := ToDigits(n);
    ToDigitsValue(n);
    assert Text(n)[0] == digits[0];
    assert TrimStart(Text(n)) == Text(n);
    assert Text(n)[..|Text(n)| - 1] == digits;
    assert IsWhitespace(Text(n)[|Text(n)| - 1]);
    assert TrimEnd(digits) == digits;
  }

  // ---------------------------------------------------------------- the protocol

  type CallerId = nat

  datatype Caller =
    | Idle
    | Waiting(candidate: nat)
    | Reading(candidate: nat)   // holds the lock from here on
    | Creating(nonce: nat)
    | Writing(nonce: nat)
    | Syncing(nonce: nat)
    | Renaming(nonce: nat)
    | Returning(nonce: nat)

  /**
   `issued` is every nonce handed out so far, over all incarnations of the process, in the order in which
   the callers released the lock; a caller may use its nonce at any time after that.
   `fileSafe` and `tempSafe` say whether the contents have reached the disk: a rename is durable by itself,
   but it moves a file whose data may still be in memory only.
   */
  datatype State = State(
    file: Option<string>,
    fileSafe: bool,
    temp: Option<string>,
    tempSafe: bool,
    lock: Option<CallerId>,
    callers: map<CallerId, Caller>,
    issued: seq<nat>)

  /**
   `fault` makes the step's file operation fail, leaving `debris` in the temporary file. A crash leaves
   anything in the temporary file, and `torn` in place of a file whose data had not reached the disk.
   */
  datatype Step =
    | Advance(caller: CallerId, clock: nat, fault: bool, debris: Option<string>)
    | Crash(debris: Option<string>, torn: Option<string>)

  function CallerOf(s: State, c: CallerId): Caller {
    if c in s.callers then s.callers[c] else Idle
  }

  function Goto(s: State, c: CallerId, to: Caller): State {
    s.(callers := s.callers[c := to])
  }

  /** The temporary file takes the place of the file, safe or not. */
  function Renamed(s: State): State {
    s.(file := s.temp, fileSafe := s.tempSafe, temp := None, tempSafe := true)
  }

  /** Leave `advance`, dropping the lock. */
  function Leave(s: State, c: CallerId): State {
    Goto(s.(lock := None), c, Idle)
  }

  /** The clock's reading as a 64-bit number. */
  function Candidate(clock: nat): nat { if clock <= U64_MAX then clock else U64_MAX }

  /** The greatest 64-bit number not past the clock. */
  lemma CandidateIsClock(clock: nat, m: nat)
    ensures Candidate(clock) <= U64_MAX && (m <= Candidate(clock) <==> m <= clock && m <= U64_MAX)
  {
  }

  function Next(s: State, step: Step): State {
    match step
    case Crash(debris, torn) =>
      s.(file := if s.fileSafe then s.file else torn, fileSafe := true,
         temp := debris, tempSafe := true, lock := None, callers := map[])
    case Advance(c, clock, fault, debris) =>
      match CallerOf(s, c)
      case Idle => Goto(s, c, Waiting(Candidate(clock)))
      case Waiting(candidate) => if s.lock.None? then Goto(s.(lock := Some(c)), c, Reading(candidate)) else s
      case Reading(candidate) =>
        if fault || Read(s.file).Err? then Leave(s, c)
        else (match NextAfter(candidate, Read(s.file).value)
              case Err(_) => Leave(s, c)
              case Ok(n) => Goto(s, c, Creating(n)))
      case Creating(n) => if fault then Leave(s, c) else Goto(s.(temp := Some([]), tempSafe := false), c, Writing(n))
      case Writing(n) =>
        if fault then Leave(s.(temp := debris, tempSafe := false), c)
        else Goto(s.(temp := Some(Text(n)), tempSafe := false), c, Syncing(n))
      case Syncing(n) => if fault then Leave(s, c) else Goto(s.(tempSafe := true), c, Renaming(n))
      case Renaming(n) => if fault then Leave(s, c) else Goto(Renamed(s), c, Returning(n))
      case Returning(n) => Leave(s.(issued := s.issued + [n]), c)
  }

  // ---------------------------------------------------------------- the invariant

  ghost predicate Increasing(s: seq<nat>) {
    forall i, j :: 0 <= i < j < |s| ==> s[i] < s[j]
  }

  /** Every issued nonce is below `n`. */
  ghost predicate AllBelow(issued: seq<nat>, n: nat) {
    forall i :: 0 <= i < |issued| ==> issued[i] < n
  }

  ghost predicate CallerOk(s: State, start: Option<string>, c: CallerId, caller: Caller) {
    match caller
    case Idle => true
    case Waiting(candidate) => candidate <= U64_MAX
    case Reading(candidate) => candidate <= U64_MAX && s.lock == Some(c)
    case Creating(n) => s.lock == Some(c) && Above(s.file, n)
    case Writing(n) => s.lock == Some(c) && Above(s.file, n)
    case Syncing(n) => s.lock == Some(c) && Above(s.file, n) && s.temp == Some(Text(n))
    case Renaming(n) => s.lock == Some(c) && Above(s.file, n) && s.temp == Some(Text(n)) && s.tempSafe
    case Returning(n) => s.lock == Some(c) && Read(s.file) == Ok(Some(n)) && Above(start, n) && AllBelow(s.issued, n)
  }

  /** `n` is a legal successor of what the file holds. */
  ghost predicate Above(file: Option<string>, n: nat) {
    1 <= n <= U64_MAX && Read(file).Ok? && (Read(file).value.Some? ==> Read(file).value.value < n)
  }

  /** Each issued nonce is at most the value on disk. */
  ghost predicate Covered(issued: seq<nat>, file: Option<string>) {
    issued != [] ==> Read(file).Ok? && Read(file).value.Some? && AllBelow(issued, Read(file).value.value + 1)
  }

  /** The file never goes back from what it held at the start, and corruption is never repaired. */
  ghost predicate Advanced(start: Option<string>, file: Option<string>, issued: seq<nat>) {
    && (Read(start).Err? ==> file == start && issued == [])
    && (Read(start).Ok? && Read(start).value.Some? ==>
          && Read(file).Ok? && Read(file).value.Some? && Read(start).value.value <= Read(file).value.value
          && forall i :: 0 <= i < |issued| ==> Read(start).value.value < issued[i])
  }

  ghost predicate Inv(s: State, start: Option<string>) {
    && s.fileSafe
    && (forall c :: c in s.callers ==> CallerOk(s, start, c, s.callers[c]))
    && Increasing(s.issued)
    && (forall i :: 0 <= i < |s.issued| ==> 1 <= s.issued[i])
    && Covered(s.issued, s.file)
    && Advanced(start, s.file, s.issued)
  }

  /** Callers outside the lock holder only ever wait. */
  lemma OthersOk(s: State, start: Option<string>, s': State, c: CallerId)
    requires forall d :: d in s.callers ==> CallerOk(s, start, d, s.callers[d])
    requires s.lock == Some(c) || (s.lock == None && s' == s.(lock := s'.lock, callers := s'.callers))
    requires s'.callers.Keys == s.callers.Keys + {c}
    requires forall d :: d in s.callers && d != c ==> s'.callers[d] == s.callers[d]
    requires c in s'.callers && CallerOk(s', start, c, s'.callers[c])
    ensures forall d :: d in s'.callers ==> CallerOk(s', start, d, s'.callers[d])
  {
    forall d | d in s'.callers ensures CallerOk(s', start, d, s'.callers[d]) {
      if d != c { assert CallerOk(s, start, d, s.callers[d]); }
    }
  }

  /** A step that neither renames nor issues keeps everything but the callers' own facts. */
  lemma MoveKeepsInv(s: State, start: Option<string>, c: CallerId, s': State, to: Caller)
    requires Inv(s, start) && s'.file == s.file && s'.fileSafe && s'.issued == s.issued
    requires s'.callers == s.callers[c := to]
    requires CallerOk(s', start, c, to)
    requires s.lock == Some(c) || (s'.temp == s.temp && s'.tempSafe == s.tempSafe && (s.lock == None || s'.lock == s.lock))
    ensures Inv(s', start)
  {
    forall d | d in s'.callers ensures CallerOk(s', start, d, s'.callers[d]) {
      if d != c { assert CallerOk(s, start, d, s.callers[d]); }
    }
  }

  lemma RenameKeepsInv(s: State, start: Option<string>, c: CallerId, n: nat)
    requires Inv(s, start) && CallerOf(s, c) == Renaming(n)
    ensures Inv(Goto(Renamed(s), c, Returning(n)), start)
  {
    assert CallerOk(s, start, c, Renaming(n));
    ReadBack(n);
    var s' := Goto(Renamed(s), c, Returning(n));
    OthersOk(s, start, s', c);
  }

  lemma IssueKeepsInv(s: State, start: Option<string>, c: CallerId, n: nat)
    requires Inv(s, start) && CallerOf(s, c) == Returning(n)
    ensures Inv(Leave(s.(issued := s.issued + [n]), c), start)
  {
    assert CallerOk(s, start, c, Returning(n));
    OthersOk(s, start, Leave(s.(issued := s.issued + [n]), c), c);
  }

  /** Steps before the rename, successful or not. */
  lemma PrepareKeepsInv(s: State, start: Option<string>, step: Step)
    requires Inv(s, start) && step.Advance?
    requires var caller := CallerOf(s, step.caller);
             !caller.Idle? && !caller.Waiting? && !caller.Returning? && (caller.Renaming? ==> step.fault)
    ensures Inv(Next(s, step), start)
  {
    var c := step.caller;
    var caller, s' := CallerOf(s, c), Next(s, step);
    assert CallerOk(s, start, c, caller);
    assert s'.file == s.file && s'.issued == s.issued && s'.callers == s.callers[c := CallerOf(s', c)];
    assert CallerOk(s', start, c, CallerOf(s', c));
    MoveKeepsInv(s, start, c, s', CallerOf(s', c));
  }

  lemma NextKeepsInv(s: State, start: Option<string>, step: Step)
    requires Inv(s, start)
    ensures Inv(Next(s, step), start)
  {
    if step.Advance? {
      var c, s' := step.caller, Next(s, step);
      match CallerOf(s, c)
      case Idle => MoveKeepsInv(s, start, c, s', CallerOf(s', c));
      case Waiting(_) => if s.lock.None? { MoveKeepsInv(s, start, c, s', CallerOf(s', c)); }
      case Renaming(n) => if step.fault { PrepareKeepsInv(s, start, step); } else { RenameKeepsInv(s, start, c, n); }
      case Returning(n) => IssueKeepsInv(s, start, c, n);
      case _ => PrepareKeepsInv(s, start, step);
    }
  }

  function Initial(start: Option<string>): State {
    State(start, true, None, true, None, map[], [])
  }

  function Run(s: State, start: Option<string>, steps: seq<Step>): (r: State)
    requires Inv(s, start)
    ensures Inv(r, start)
    decreases |steps|
  {
    if steps == [] then s
    else
      NextKeepsInv(s, start, steps[0]);
      Run(Next(s, steps[0]), start, steps[1..])
  }

  /**
   Over any interleaving of callers, any clock, any file errors and any crashes: nonces are
   handed out in strictly increasing order, each at least 1, above whatever the file held at
   the start and at most what is on disk now; with a corrupt file none is handed out.
   */
  lemma NonceSafety(start: Option<string>, steps: seq<Step>)
    ensures Inv(Initial(start), start)
    ensures var s := Run(Initial(start), start, steps);
            && Increasing(s.issued)
            && (forall i :: 0 <= i < |s.issued| ==>
                  && 1 <= s.issued[i]
                  && Read(s.file).Ok? && Read(s.file).value.Some? && s.issued[i] <= Read(s.file).value.value
                  && (Read(start).Ok? && Read(start).value.Some? ==> Read(start).value.value < s.issued[i]))
            && (Read(start).Err? ==> s.issued == [] && s.file == start)
  {
    assert Inv(Initial(start), start);
    var s := Run(Initial(start), start, steps);
    assert Inv(s, start);
  }

  /**
   The sync is what this rests on: once a nonce is out and the file's data is not yet on disk, some crash
   leaves a file that no longer covers it, so that the same nonce can be handed out again.
   */
  lemma SyncIsNeeded(s: State)
    requires s.issued != [] && !s.fileSafe
    ensures exists crash: Step :: crash.Crash? && !Covered(Next(s, crash).issued, Next(s, crash).file)
  {
    var crash := Crash(None, None);
    assert Read(Next(s, crash).file) == Ok(None);
    assert !Covered(Next(s, crash).issued, Next(s, crash).file);
  }

  // ---------------------------------------------------------------- one call on its own

  /** One step of caller `c` alone, with no fault. */
  function Alone(s: State, c: CallerId, clock: nat): State {
    Next(s, Advance(c, clock, false, None))
  }

  /** Start, take the lock, read and compute. */
  function FirstSteps(s: State, c: CallerId, clock: nat): State {
    Alone(Alone(Alone(s, c, clock), c, clock), c, clock)
  }

  /** Create, write, sync, rename and return. */
  function LastSteps(s: State, c: CallerId, clock: nat): State {
    var written := Alone(Alone(s, c, clock), c, clock);
    Alone(Alone(Alone(written, c, clock), c, clock), c, clock)
  }

  lemma FirstStepsCompute(s: State, c: CallerId, clock: nat)
    requires CallerOf(s, c).Idle? && s.lock.None?
    ensures var read := Read(s.file);
            FirstSteps(s, c, clock) ==
            if read.Ok? && NextAfter(Candidate(clock), read.value).Ok?
            then Goto(s.(lock := Some(c)), c, Creating(NextAfter(Candidate(clock), read.value).value))
            else Goto(s, c, Idle)
  {
    var s1 := Goto(s, c, Waiting(Candidate(clock)));
    var s2 := Goto(s.(lock := Some(c)), c, Reading(Candidate(clock)));
    assert Alone(s, c, clock) == s1;
    LocksAlone(s, c, clock);
    ReadsAlone(s2, c, clock, Candidate(clock));
    assert Goto(Leave(s2, c), c, Idle) == Goto(s, c, Idle);
  }

  lemma LocksAlone(s: State, c: CallerId, clock: nat)
    requires s.lock.None?
    ensures Alone(Goto(s, c, Waiting(Candidate(clock))), c, clock) ==
            Goto(s.(lock := Some(c)), c, Reading(Candidate(clock)))
  {
    var s1 := Goto(s, c, Waiting(Candidate(clock)));
    assert s1.callers[c := Reading(Candidate(clock))] == s.callers[c := Reading(Candidate(clock))];
  }

  lemma ReadsAlone(s: State, c: CallerId, clock: nat, candidate: nat)
    requires CallerOf(s, c) == Reading(candidate)
    ensures var read := Read(s.file);
            Alone(s, c, clock) ==
            if read.Ok? && NextAfter(candidate, read.value).Ok?
            then Goto(s, c, Creating(NextAfter(candidate, read.value).value)) else Leave(s, c)
  {
  }

  lemma LastStepsPersist(s: State, c: CallerId, clock: nat, n: nat)
    requires CallerOf(s, c) == Creating(n) && s.lock == Some(c)
    ensures LastSteps(s, c, clock) ==
            Goto(s.(file := Some(Text(n)), fileSafe := true, temp := None, tempSafe := true, lock := None,
                    issued := s.issued + [n]), c, Idle)
  {
    var s1 := Alone(s, c, clock);
    assert s1 == Goto(s.(temp := Some([]), tempSafe := false), c, Writing(n));
    var s2 := Alone(s1, c, clock);
    assert s2 == Goto(s.(temp := Some(Text(n)), tempSafe := false), c, Syncing(n));
    var s3 := Alone(s2, c, clock);
    assert s3 == Goto(s.(temp := Some(Text(n)), tempSafe := true), c, Renaming(n));
    var s4 := Alone(s3, c, clock);
    assert s4 == Goto(s.(file := Some(Text(n)), fileSafe := true, temp := None, tempSafe := true), c, Returning(n));
  }

  /** `s'` is `s` with the least permitted nonce handed out and on disk. */
  ghost predicate HandsOutLeast(s: State, s': State, candidate: nat, last: Option<nat>) {
    exists n: nat ::
      && s'.issued == s.issued + [n] && s'.file == Some(Text(n)) && s'.fileSafe
      && Permitted(n, candidate, last) && forall m: nat :: Permitted(m, candidate, last) ==> n <= m
  }

  /** A corrupt or exhausted file: an undisturbed call hands out nothing and changes nothing. */
  lemma UndisturbedRefusal(s: State, c: CallerId, clock: nat)
    requires CallerOf(s, c).Idle? && s.lock.None?
    requires Read(s.file).Err? || Read(s.file).value == Some(U64_MAX)
    ensures FirstSteps(s, c, clock) == Goto(s, c, Idle)
  {
    FirstStepsCompute(s, c, clock);
  }

  lemma LeastHandedOut(s: State, s': State, c: CallerId, n: nat, candidate: nat, last: Option<nat>)
    requires NextAfter(candidate, last) == Ok(n)
    requires s'.issued == s.issued + [n] && s'.file == Some(Text(n)) && s'.fileSafe
    ensures HandsOutLeast(s, s', candidate, last)
  {
  }

  /**
   Any other undisturbed call without faults hands out the least nonce that the clock and the file permit,
   and that is what the file then holds.
   */
  lemma UndisturbedAdvance(s: State, c: CallerId, clock: nat)
    requires CallerOf(s, c).Idle? && s.lock.None?
    requires Read(s.file).Ok? && Read(s.file).value != Some(U64_MAX)
    ensures HandsOutLeast(s, LastSteps(FirstSteps(s, c, clock), c, clock), Candidate(clock), Read(s.file).value)
  {
    var n := NextAfter(Candidate(clock), Read(s.file).value).value;
    var s3 := Goto(s.(lock := Some(c)), c, Creating(n));
    assert FirstSteps(s, c, clock) == s3 by { FirstStepsCompute(s, c, clock); }
    LastStepsPersist(s3, c, clock, n);
    LeastHandedOut(s, LastSteps(s3, c, clock), c, n, Candidate(clock), Read(s.file).value);
  }
}
