/**
  The follow loop of `Process.get_session_command_logs_async`.

  Each turn of the loop keeps one read of the log stream outstanding (it starts one
  when none is), starts a fresh 2-second timer and waits for whichever finishes
  first. A finished read wins even when the timer finished too: its chunk is
  decoded as UTF-8 and handed to `on_logs`, and the end of the stream ends the loop.
  When only the timer finished, the command's status is polled; the second poll
  that reports an exit code cancels the outstanding read and ends the loop.

  The stream, the timer and the status endpoint are not modelled: a run is driven by
  a trace of `Round`s, one per `asyncio.wait`, saying which of the two tasks are in
  its `done` set and what they returned. A trace that runs out leaves the loop still
  following.
 */
module LogFollower {
  import opened Wrappers
  import opened Builtins
  import Utf8

  /** What `anext(stream, None)` gave: a chunk of bytes, `None` at the end, or an exception. */
  datatype ReadOutcome = Chunk(bytes: seq<byte>) | EndOfStream | ReadFailed

  /** What `get_session_command` reported: no exit code yet, an exit code, or an exception. */
  datatype PollOutcome = Running | Exited(code: int) | PollFailed

  /**
    How one `asyncio.wait(..., FIRST_COMPLETED)` ended: what the read returned when it is
    in the `done` set, whether the timer is in it, and what `get_session_command` reports
    if the loop polls in this turn. Which branch is taken is left to `Step`.
   */
  datatype Round = Wait(read: Option<ReadOutcome>, timerDone: bool, poll: PollOutcome)

  /** The exceptions that leave the loop. */
  datatype FollowError =
    | ReadError                     // the stream raised
    | DecodeError(chunk: seq<byte>) // chunk.decode("utf-8") raised
    | PollError                     // get_session_command raised

  datatype Status = Following | StreamEnded | CommandExited | Failed(error: FollowError)

  /**
    The loop's variables: whether `next_chunk` holds a read, `exit_code_seen_count`,
    what `on_logs` received, and counters of reads started and finished, of polls, and
    whether the outstanding read was cancelled.
   */
  datatype State = State(
    status: Status,
    readPending: bool,
    exitCodeSeenCount: nat,
    delivered: seq<string>,
    readsStarted: nat,
    readsCompleted: nat,
    polls: nat,
    readCancelled: bool)

  function Init(): State {
    State(Following, false, 0, [], 0, 0, 0, false)
  }

  /** One turn of the loop. */
  function Step(st: State, round: Round): State
    requires st.status == Following
  {
    var started := if st.readPending then st.readsStarted else st.readsStarted + 1;
    if round.read.Some? then
      var st1 := st.(readPending := false, readsStarted := started, readsCompleted := st.readsCompleted + 1);
      match round.read.value
      case EndOfStream => st1.(status := StreamEnded)
      case ReadFailed => st1.(status := Failed(ReadError))
      case Chunk(bytes) =>
        match Utf8.Decode(bytes)
        case None => st1.(status := Failed(DecodeError(bytes)))
        case Some(text) => st1.(delivered := st.delivered + [text])
    else if round.timerDone then
      var st1 := st.(readPending := true, readsStarted := started, polls := st.polls + 1);
      match round.poll
      case PollFailed => st1.(status := Failed(PollError))
      case Running => st1
      case Exited(_) =>
        var seen := st.exitCodeSeenCount + 1;
        if seen > 1 then st1.(exitCodeSeenCount := seen, readCancelled := true, status := CommandExited)
        else st1.(exitCodeSeenCount := seen)
    else
      st.(readPending := true, readsStarted := started)
  }

  /** The state after the loop has run on `rounds`, stopping when it leaves `Following`. */
  function Run(st: State, rounds: seq<Round>): State
    decreases |rounds|
  {
    if st.status != Following || rounds == [] then st
    else Run(Step(st, rounds[0]), rounds[1..])
  }

  /** How many rounds the loop takes before it stops or the trace runs out. */
  function Consumed(st: State, rounds: seq<Round>): (n: nat)
    ensures n <= |rounds|
    decreases |rounds|
  {
    if st.status != Following || rounds == [] then 0
    else 1 + Consumed(Step(st, rounds[0]), rounds[1..])
  }

  /** `get_session_command_logs_async(session_id, command_id, on_logs)`, driven by `rounds`. */
  method FollowLogs(rounds: seq<Round>) returns (st: State, consumed: nat)
    ensures st == Run(Init(), rounds)
    ensures consumed == Consumed(Init(), rounds)
  {
    var nextChunk := false;
    var exitCodeSeenCount := 0;
    var delivered: seq<string> := [];
    var readsStarted, readsCompleted, polls := 0, 0, 0;
    var readCancelled := false;
    var status := Following;
    var i := 0;
    while i < |rounds| && status == Following
      invariant 0 <= i <= |rounds|
      invariant var cur := State(status, nextChunk, exitCodeSeenCount, delivered, readsStarted, readsCompleted, polls, readCancelled);
        Run(Init(), rounds) == Run(cur, rounds[i..]) && Consumed(Init(), rounds) == i + Consumed(cur, rounds[i..])
    {
      ghost var before := State(status, nextChunk, exitCodeSeenCount, delivered, readsStarted, readsCompleted, polls, readCancelled);
      assert rounds[i..][1..] == rounds[i + 1..];
      if !nextChunk {
        nextChunk := true;
        readsStarted := readsStarted + 1;
      }
      var round := rounds[i];
      if round.read.Some? {
        nextChunk := false;
        readsCompleted := readsCompleted + 1;
        match round.read.value {
          case EndOfStream =>
            status := StreamEnded;
          case ReadFailed =>
            status := Failed(ReadError);
          case Chunk(bytes) =>
            var text := Utf8.Decode(bytes);
            if text.None? {
              status := Failed(DecodeError(bytes));
            } else {
              delivered := delivered + [text.value];
            }
        }
      } else if round.timerDone {
        polls := polls + 1;
        match round.poll {
          case PollFailed =>
            status := Failed(PollError);
          case Running =>
          case Exited(_) =>
            exitCodeSeenCount := exitCodeSeenCount + 1;
            if exitCodeSeenCount > 1 {
              readCancelled := true;
              status := CommandExited;
            }
        }
      }
      assert State(status, nextChunk, exitCodeSeenCount, delivered, readsStarted, readsCompleted, polls, readCancelled)
        == Step(before, rounds[i]);
      i := i + 1;
    }
    st := State(status, nextChunk, exitCodeSeenCount, delivered, readsStarted, readsCompleted, polls, readCancelled);
    consumed := i;
  }

  /** The chunk a round read, if it read one. */
  function RoundChunks(round: Round): seq<seq<byte>> {
    match round.read
    case Some(Chunk(bytes)) => [bytes]
    case _ => []
  }

  /** The chunks the stream returned, in order. */
  function ChunksOf(rounds: seq<Round>): seq<seq<byte>>
    decreases |rounds|
  {
    if rounds == [] then [] else RoundChunks(rounds[0]) + ChunksOf(rounds[1..])
  }

  /** 1 for a poll that saw an exit code. */
  function ExitTick(round: Round): nat {
    if round.read.None? && round.timerDone && round.poll.Exited? then 1 else 0
  }

  /** How many polls saw an exit code. */
  function ExitTicks(rounds: seq<Round>): nat
    decreases |rounds|
  {
    if rounds == [] then 0 else ExitTick(rounds[0]) + ExitTicks(rounds[1..])
  }

  /** Each chunk decoded as UTF-8, in order, up to the first one that does not decode. */
  function Deliveries(chunks: seq<seq<byte>>): seq<string>
    decreases |chunks|
  {
    if chunks == [] then []
    else
      match Utf8.Decode(chunks[0])
      case None => []
      case Some(text) => [text] + Deliveries(chunks[1..])
  }

  lemma SliceCons<T>(s: seq<T>, n: nat)
    requires 1 <= n <= |s|
    ensures s[..n] == [s[0]] + s[1..][..n - 1]
  {
  }

  lemma RunStep(st: State, rounds: seq<Round>)
    requires st.status == Following && rounds != []
    ensures Run(st, rounds) == Run(Step(st, rounds[0]), rounds[1..])
    ensures Consumed(st, rounds) == 1 + Consumed(Step(st, rounds[0]), rounds[1..])
    ensures rounds[..Consumed(st, rounds)] == [rounds[0]] + rounds[1..][..Consumed(Step(st, rounds[0]), rounds[1..])]
  {
    var n := Consumed(st, rounds);
    assert n == 1 + Consumed(Step(st, rounds[0]), rounds[1..]);
    SliceCons(rounds, n);
  }

  lemma ChunksOfCons(r: Round, rest: seq<Round>)
    ensures ChunksOf([r] + rest) == RoundChunks(r) + ChunksOf(rest)
    ensures ExitTicks([r] + rest) == ExitTick(r) + ExitTicks(rest)
  {
    assert ([r] + rest)[1..] == rest;
  }

  lemma DeliveriesOfText(bytes: seq<byte>, text: string, rest: seq<seq<byte>>)
    requires Utf8.Decode(bytes) == Some(text)
    ensures Deliveries([bytes] + rest) == [text] + Deliveries(rest)
  {
    assert ([bytes] + rest)[0] == bytes && ([bytes] + rest)[1..] == rest;
  }

  lemma DeliveriesCons(bytes: seq<byte>, rest: seq<seq<byte>>)
    requires Utf8.Decode(bytes).None? ==> rest == []
    ensures Deliveries([bytes] + rest) == Deliveries([bytes]) + Deliveries(rest)
  {
    if rest == [] {
      assert [bytes] + rest == [bytes];
    } else {
      var text := Utf8.Decode(bytes).value;
      DeliveriesOfText(bytes, text, rest);
      DeliveriesOfText(bytes, text, []);
      assert [bytes] + [] == [bytes];
    }
  }

  /** One round hands on the chunk it read, decoded; a chunk that does not decode ends the loop. */
  lemma StepDelivers(st: State, r: Round, rest: seq<seq<byte>>)
    requires st.status == Following
    requires Step(st, r).status != Following ==> rest == []
    ensures Step(st, r).delivered == st.delivered + Deliveries(RoundChunks(r))
    ensures Deliveries(RoundChunks(r) + rest) == Deliveries(RoundChunks(r)) + Deliveries(rest)
  {
    match r.read
    case Some(Chunk(bytes)) =>
      assert RoundChunks(r) == [bytes];
      DeliveriesCons(bytes, rest);
    case _ =>
      assert RoundChunks(r) == [];
      assert RoundChunks(r) + rest == rest;
  }

  /**
    Every chunk the loop took is handed to `on_logs` exactly once and in order, decoded;
    the loop stops at the first chunk that is not valid UTF-8, which is then not handed on.
   */
  lemma {:induction false} RunDelivers(st: State, rounds: seq<Round>)
    ensures Run(st, rounds).delivered == st.delivered + Deliveries(ChunksOf(rounds[..Consumed(st, rounds)]))
    decreases |rounds|
  {
    if st.status == Following && rounds != [] {
      var st1 := Step(st, rounds[0]);
      RunStep(st, rounds);
      RunDelivers(st1, rounds[1..]);
      var rest := rounds[1..][..Consumed(st1, rounds[1..])];
      ChunksOfCons(rounds[0], rest);
      StepDelivers(st, rounds[0], ChunksOf(rest));
    } else {
      assert rounds[..0] == [];
    }
  }

  /** The exit counter counts exactly the polls that saw an exit code, and is never reset. */
  lemma {:induction false} RunCountsExits(st: State, rounds: seq<Round>)
    ensures Run(st, rounds).exitCodeSeenCount == st.exitCodeSeenCount + ExitTicks(rounds[..Consumed(st, rounds)])
    decreases |rounds|
  {
    if st.status == Following && rounds != [] {
      var st1 := Step(st, rounds[0]);
      RunStep(st, rounds);
      RunCountsExits(st1, rounds[1..]);
      StepContinues(st, rounds[0]);
      ChunksOfCons(rounds[0], rounds[1..][..Consumed(st1, rounds[1..])]);
    } else {
      assert rounds[..0] == [];
    }
  }

  /**
    What holds of the loop's variables at the top of every turn and after it: exactly
    one read is outstanding or none, so reads started are those finished plus at most
    one; the counter stays at most 2 and reaches 2 exactly when the loop stopped for
    the second exit code, the only way it cancels the outstanding read.
   */
  predicate Inv(st: State) {
    && st.readsStarted == st.readsCompleted + (if st.readPending then 1 else 0)
    && st.exitCodeSeenCount <= 2
    && (st.exitCodeSeenCount == 2 <==> st.status == CommandExited)
    && (st.readCancelled <==> st.status == CommandExited)
    && (st.status == CommandExited ==> st.readPending)
  }

  lemma StepPreservesInv(st: State, round: Round)
    requires st.status == Following && Inv(st)
    ensures Inv(Step(st, round))
  {
  }

  lemma {:induction false} RunPreservesInv(st: State, rounds: seq<Round>)
    requires Inv(st)
    ensures Inv(Run(st, rounds))
    decreases |rounds|
  {
    if st.status == Following && rounds != [] {
      StepPreservesInv(st, rounds[0]);
      RunPreservesInv(Step(st, rounds[0]), rounds[1..]);
    }
  }

  /** The loop's end state from the start: every property of `Inv` holds. */
  lemma FollowInvariant(rounds: seq<Round>)
    ensures Inv(Run(Init(), rounds))
    ensures Run(Init(), rounds).exitCodeSeenCount == ExitTicks(rounds[..Consumed(Init(), rounds)])
  {
    RunPreservesInv(Init(), rounds);
    RunCountsExits(Init(), rounds);
  }

  /**
    A finished read wins a tie with the timer: whether the timer is done too, and what
    a poll would have reported, change nothing; the status is not polled and no read is
    left outstanding.
   */
  lemma ReadWinsTie(st: State, outcome: ReadOutcome, poll1: PollOutcome, poll2: PollOutcome)
    requires st.status == Following
    ensures Step(st, Wait(Some(outcome), true, poll1)) == Step(st, Wait(Some(outcome), false, poll2))
    ensures Step(st, Wait(Some(outcome), true, poll1)).polls == st.polls
    ensures !Step(st, Wait(Some(outcome), true, poll1)).readPending
  {
  }

  /**
    When neither task is done the loop only goes round again: the read stays outstanding
    (it is started if none was), nothing is polled, delivered or counted. This is the
    fall-through of the `if`/`elif`; `asyncio.wait(..., FIRST_COMPLETED)` without a
    timeout never returns an empty `done` set, so real traces do not contain it.
   */
  lemma NothingDoneWaitsAgain(st: State, poll: PollOutcome)
    requires st.status == Following
    ensures var st1 := Step(st, Wait(None, false, poll));
      && st1.status == Following && st1.readPending
      && st1.polls == st.polls && st1.delivered == st.delivered
      && st1.exitCodeSeenCount == st.exitCodeSeenCount
      && st1.readsCompleted == st.readsCompleted
  {
  }

  /** The end of the stream ends the loop at once, delivering nothing more and polling nothing. */
  lemma EndOfStreamStops(st: State, rounds: seq<Round>)
    requires st.status == Following && rounds != [] && rounds[0].read == Some(EndOfStream)
    ensures Consumed(st, rounds) == 1
    ensures Run(st, rounds).status == StreamEnded
    ensures Run(st, rounds).delivered == st.delivered
    ensures Run(st, rounds).polls == st.polls
  {
    RunStep(st, rounds);
  }

  /**
    A poll with no exit code only waits for the next turn: the loop keeps following
    with a read outstanding (the one it started this turn if none was), and the counter
    and what was delivered are unchanged.
   */
  lemma RunningPollKeepsFollowing(st: State)
    requires st.status == Following
    ensures var st1 := Step(st, Wait(None, true, Running));
      && st1.status == Following && st1.readPending
      && st1.polls == st.polls + 1
      && st1.exitCodeSeenCount == st.exitCodeSeenCount
      && st1.delivered == st.delivered
  {
  }

  /** A round that does not stop the loop, given how many exit codes were already seen. */
  predicate Continues(round: Round, exitsSeen: nat) {
    match round.read
    case Some(Chunk(bytes)) => Utf8.Decode(bytes).Some?
    case Some(_) => false
    case None =>
      !round.timerDone ||
      match round.poll
      case Running => true
      case Exited(_) => exitsSeen == 0
      case PollFailed => false
  }

  /** Every round continues, counting the exit codes seen along the way. */
  predicate ContinuesAll(rounds: seq<Round>, exitsSeen: nat)
    decreases |rounds|
  {
    rounds == [] || (Continues(rounds[0], exitsSeen) && ContinuesAll(rounds[1..], exitsSeen + ExitTick(rounds[0])))
  }

  /**
    A round keeps the loop going exactly when it `Continues`; the counter never goes
    down and rises by one on a poll that sees an exit code.
   */
  lemma StepContinues(st: State, round: Round)
    requires st.status == Following
    ensures Step(st, round).status == Following <==> Continues(round, st.exitCodeSeenCount)
    ensures Step(st, round).exitCodeSeenCount == st.exitCodeSeenCount + ExitTick(round)
  {
  }

  /** While every round continues the loop takes them all and keeps following. */
  lemma {:induction false} KeepsFollowing(st: State, rounds: seq<Round>)
    requires st.status == Following && ContinuesAll(rounds, st.exitCodeSeenCount)
    ensures Run(st, rounds).status == Following
    ensures Consumed(st, rounds) == |rounds|
    ensures Run(st, rounds).exitCodeSeenCount == st.exitCodeSeenCount + ExitTicks(rounds)
    decreases |rounds|
  {
    if rounds != [] {
      StepContinues(st, rounds[0]);
      RunStep(st, rounds);
      KeepsFollowing(Step(st, rounds[0]), rounds[1..]);
    }
  }

  lemma PrefixCons(rounds: seq<Round>, k: nat)
    requires 0 < k <= |rounds|
    ensures rounds[..k] == [rounds[0]] + rounds[1..][..k - 1]
    ensures rounds[..k][0] == rounds[0] && rounds[..k][1..] == rounds[1..][..k - 1]
  {
  }

  /** The first round alone stops the loop. */
  lemma StopsAtOnce(st: State, rounds: seq<Round>)
    requires st.status == Following && rounds != []
    requires !Continues(rounds[0], st.exitCodeSeenCount)
    ensures Run(st, rounds[..0]) == st
    ensures Consumed(st, rounds) == 1
    ensures Run(st, rounds) == Step(st, rounds[0])
    ensures Run(st, rounds).status != Following
  {
    StepContinues(st, rounds[0]);
    RunStep(st, rounds);
    assert rounds[..0] == [];
  }

  /** A first round that continues hands the rest of the trace to the next turn. */
  lemma ContinueFirst(st: State, rounds: seq<Round>, k: nat)
    requires st.status == Following && 0 < k < |rounds|
    requires ContinuesAll(rounds[..k], st.exitCodeSeenCount)
    ensures var st1 := Step(st, rounds[0]);
      && st1.status == Following
      && ContinuesAll(rounds[1..][..k - 1], st1.exitCodeSeenCount)
      && rounds[1..][k - 1] == rounds[k]
      && st1.exitCodeSeenCount + ExitTicks(rounds[1..][..k - 1]) == st.exitCodeSeenCount + ExitTicks(rounds[..k])
      && Run(st, rounds[..k]) == Run(st1, rounds[1..][..k - 1])
      && Run(st, rounds) == Run(st1, rounds[1..])
      && Consumed(st, rounds) == 1 + Consumed(st1, rounds[1..])
  {
    var tail := rounds[1..][..k - 1];
    PrefixCons(rounds, k);
    StepContinues(st, rounds[0]);
    RunStep(st, rounds);
    RunStep(st, rounds[..k]);
    ChunksOfCons(rounds[0], tail);
  }

  /**
    The loop stops at the first round that does not continue: it takes exactly the
    rounds up to that one, and ends in the state that round leaves.
   */
  lemma {:induction false} StopsAtFirstStop(st: State, rounds: seq<Round>, k: nat)
    requires st.status == Following && k < |rounds|
    requires ContinuesAll(rounds[..k], st.exitCodeSeenCount)
    requires !Continues(rounds[k], st.exitCodeSeenCount + ExitTicks(rounds[..k]))
    ensures Run(st, rounds[..k]).status == Following
    ensures Consumed(st, rounds) == k + 1
    ensures Run(st, rounds) == Step(Run(st, rounds[..k]), rounds[k])
    ensures Run(st, rounds).status != Following
    decreases k
  {
    if k == 0 {
      assert ExitTicks(rounds[..0]) == 0 by {
        assert rounds[..0] == [];
      }
      StopsAtOnce(st, rounds);
    } else {
      ContinueFirst(st, rounds, k);
      StopsAtFirstStop(Step(st, rounds[0]), rounds[1..], k - 1);
    }
  }

  /**
    The loop ends at the second poll that sees an exit code, when nothing stopped it
    before: the counter is then 2 and the outstanding read is cancelled.
   */
  lemma StopsAtSecondExit(st: State, rounds: seq<Round>, k: nat)
    requires k < |rounds| && ExitTick(rounds[k]) == 1
    requires st.status == Following && ContinuesAll(rounds[..k], st.exitCodeSeenCount)
    requires st.exitCodeSeenCount + ExitTicks(rounds[..k]) == 1
    ensures Consumed(st, rounds) == k + 1
    ensures Run(st, rounds).status == CommandExited
    ensures Run(st, rounds).exitCodeSeenCount == 2
    ensures Run(st, rounds).readCancelled
  {
    KeepsFollowing(st, rounds[..k]);
    StopsAtFirstStop(st, rounds, k);
  }

  /**
    A chunk boundary that splits a character ends the loop: `é` sent as the two chunks
    `C3` and `A9` fails on the first, although the two together decode to `é`.
   */
  lemma SplitCharacterFails()
    ensures Utf8.Decode([0xC3, 0xA9]) == Some("é")
    ensures var rounds := [Wait(Some(Chunk([0xC3])), false, Running), Wait(Some(Chunk([0xA9])), false, Running)];
      && Run(Init(), rounds).status == Failed(DecodeError([0xC3]))
      && Run(Init(), rounds).delivered == []
  {
    var rounds := [Wait(Some(Chunk([0xC3])), false, Running), Wait(Some(Chunk([0xA9])), false, Running)];
    assert Utf8.Decode([0xC3]) == None;
    var e: seq<byte> := [0xC3, 0xA9];
    assert Utf8.DecodeFirst(e) == Some(('é', 2));
    assert e[2..] == [];
    assert Utf8.Decode(e) == Some(['é'] + "");
    assert ['é'] + "" == "é";
    RunStep(Init(), rounds);
  }
}
