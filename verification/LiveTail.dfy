/**
 * The live-tail bridge (server/src/services/liveTail.js): repeated polls of the query RPC,
 * of which only what is new is sent on. An entry is its own key: SHA-1 of its JSON text is
 * taken to be injective.
 */
module LiveTail {
  import opened Seqs

  datatype Entry = Entry(timestampNano: int, message: string)

  /** The outcome of one poll: an error, or the entries of the look-back window. */
  datatype Poll = Failed(error: string) | Got(logs: seq<Entry>)

  datatype Frame = Connecting | Connected | Log(log: Entry) | Error(error: string)

  type Counts = map<Entry, nat>

  function CountOf(counts: Counts, e: Entry): nat {
    if e in counts then counts[e] else 0
  }

  function Max(a: int, b: int): int {
    if a >= b then a else b
  }

  // ---------------------------------------------------------------- one poll

  /** How often each entry occurs. */
  function Tally(logs: seq<Entry>): Counts {
    if logs == [] then map[] else
    var before, last := Tally(logs[..|logs| - 1]), logs[|logs| - 1];
    before[last := CountOf(before, last) + 1]
  }

  /** The entries sent for a poll: each occurrence beyond the count already seen. */
  function Fresh(seen: Counts, logs: seq<Entry>): seq<Entry> {
    if logs == [] then [] else
    var front, e := Fresh(seen, logs[..|logs| - 1]), logs[|logs| - 1];
    if CountOf(Tally(logs), e) > CountOf(seen, e) then front + [e] else front
  }

  /** The counts after a poll: entries that were not in it keep their old count. */
  function Updated(seen: Counts, logs: seq<Entry>): Counts {
    seen + Tally(logs)
  }

  lemma CountAppended(s: seq<Entry>, x: Entry, e: Entry)
    ensures multiset(s + [x])[e] == multiset(s)[e] + if e == x then 1 else 0
  {
  }

  lemma {:induction false} TallyCount(logs: seq<Entry>, e: Entry)
    ensures CountOf(Tally(logs), e) == multiset(logs)[e]
    ensures e in Tally(logs) <==> e in logs
  {
    if logs != [] {
      var front, x := logs[..|logs| - 1], logs[|logs| - 1];
      TallyCount(front, e);
      assert logs == front + [x];
      CountAppended(front, x, e);
    }
  }

  lemma {:induction false} FreshCount(seen: Counts, logs: seq<Entry>, e: Entry)
    ensures multiset(Fresh(seen, logs))[e] == Max(0, multiset(logs)[e] - CountOf(seen, e))
  {
    if logs != [] {
      var front, x := logs[..|logs| - 1], logs[|logs| - 1];
      FreshCount(seen, front, e);
      assert logs == front + [x];
      CountAppended(front, x, e);
      CountAppended(Fresh(seen, front), x, e);
      TallyCount(logs, x);
    }
  }

  lemma UpdatedCount(seen: Counts, logs: seq<Entry>, e: Entry)
    ensures CountOf(Updated(seen, logs), e) == if e in logs then multiset(logs)[e] else CountOf(seen, e)
  {
    TallyCount(logs, e);
  }

  function LogFrames(entries: seq<Entry>): seq<Frame> {
    seq(|entries|, i requires 0 <= i < |entries| => Log(entries[i]))
  }

  // ---------------------------------------------------------------- runs of polls

  function SeenAfter(polls: seq<Poll>): Counts {
    if polls == [] then map[] else
    var before, last := SeenAfter(polls[..|polls| - 1]), polls[|polls| - 1];
    if last.Got? then Updated(before, last.logs) else before
  }

  /** All entries sent during a run of polls. */
  function SentAfter(polls: seq<Poll>): seq<Entry> {
    if polls == [] then [] else
    var front, last := polls[..|polls| - 1], polls[|polls| - 1];
    if last.Got? then SentAfter(front) + Fresh(SeenAfter(front), last.logs) else SentAfter(front)
  }

  /** All frames of a run, as the browser receives them. */
  function FramesAfter(polls: seq<Poll>): seq<Frame> {
    if polls == [] then [Connecting] else
    var front, last := polls[..|polls| - 1], polls[|polls| - 1];
    FramesAfter(front) + FramesOf(SeenAfter(front), last)
  }

  /** The frames of one poll. */
  function FramesOf(seen: Counts, poll: Poll): seq<Frame> {
    match poll
    case Failed(error) => [Error(error)]
    case Got(logs) => LogFrames(Fresh(seen, logs)) + [Connected]
  }

  /** The log entries among the frames. */
  function LogsIn(frames: seq<Frame>): seq<Entry> {
    if frames == [] then [] else
    var front, last := LogsIn(frames[..|frames| - 1]), frames[|frames| - 1];
    if last.Log? then front + [last.log] else front
  }

  lemma {:induction false} LogsInConcat(a: seq<Frame>, b: seq<Frame>)
    ensures LogsIn(a + b) == LogsIn(a) + LogsIn(b)
  {
    if b == [] {
      assert a + b == a;
    } else {
      LogsInConcat(a, b[..|b| - 1]);
      assert (a + b)[..|a + b| - 1] == a + b[..|b| - 1];
    }
  }

  lemma {:induction false} LogsInLogFrames(entries: seq<Entry>)
    ensures LogsIn(LogFrames(entries)) == entries
  {
    if entries != [] {
      var front := entries[..|entries| - 1];
      LogsInLogFrames(front);
      assert LogFrames(entries)[..|entries| - 1] == LogFrames(front);
    }
  }

  /** What the browser receives as logs is what the run of polls sends. */
  lemma {:induction false} LogsReceived(polls: seq<Poll>)
    ensures LogsIn(FramesAfter(polls)) == SentAfter(polls)
  {
    if polls == [] {
      assert [Connecting][..0] == [];
    } else {
      var front, last := polls[..|polls| - 1], polls[|polls| - 1];
      LogsReceived(front);
      LogsInConcat(FramesAfter(front), FramesOf(SeenAfter(front), last));
      LogsInFrames(SeenAfter(front), last);
    }
  }

  lemma LogsInFrames(seen: Counts, poll: Poll)
    ensures LogsIn(FramesOf(seen, poll)) == if poll.Got? then Fresh(seen, poll.logs) else []
  {
    match poll
    case Failed(error) => assert [Error(error)][..0] == [];
    case Got(logs) =>
      LogsInConcat(LogFrames(Fresh(seen, logs)), [Connected]);
      LogsInLogFrames(Fresh(seen, logs));
      assert [Connected][..0] == [];
  }

  // ---------------------------------------------------------------- what the browser is told

  /** The texts of the error frames. */
  function ErrorsIn(frames: seq<Frame>): seq<string> {
    if frames == [] then [] else
    var front, last := ErrorsIn(frames[..|frames| - 1]), frames[|frames| - 1];
    if last.Error? then front + [last.error] else front
  }

  /** The errors of the failed polls. */
  function ErrorsOf(polls: seq<Poll>): seq<string> {
    if polls == [] then [] else
    var front, last := ErrorsOf(polls[..|polls| - 1]), polls[|polls| - 1];
    if last.Failed? then front + [last.error] else front
  }

  lemma {:induction false} ErrorsInConcat(a: seq<Frame>, b: seq<Frame>)
    ensures ErrorsIn(a + b) == ErrorsIn(a) + ErrorsIn(b)
  {
    if b == [] {
      assert a + b == a;
    } else {
      ErrorsInConcat(a, b[..|b| - 1]);
      assert (a + b)[..|a + b| - 1] == a + b[..|b| - 1];
    }
  }

  lemma {:induction false} NoErrors(frames: seq<Frame>)
    requires forall k :: 0 <= k < |frames| ==> !frames[k].Error?
    ensures ErrorsIn(frames) == []
  {
    if frames != [] {
      NoErrors(frames[..|frames| - 1]);
    }
  }

  lemma ErrorsInOne(error: string)
    ensures ErrorsIn([Error(error)]) == [error]
  {
    assert [Error(error)][..0] == [];
  }

  /** In every run, the browser gets exactly the errors of the failed polls, in order. */
  lemma {:induction false} ErrorsReceived(polls: seq<Poll>)
    ensures ErrorsIn(FramesAfter(polls)) == ErrorsOf(polls)
  {
    if polls == [] {
      NoErrors([Connecting]);
    } else {
      var front, last := polls[..|polls| - 1], polls[|polls| - 1];
      ErrorsReceived(front);
      ErrorsInConcat(FramesAfter(front), FramesOf(SeenAfter(front), last));
      match last {
        case Failed(error) => ErrorsInOne(error);
        case Got(logs) => NoErrors(FramesOf(SeenAfter(front), last));
      }
    }
  }

  /** The occurrence at this place is beyond the count already seen. */
  ghost predicate IsNew(seen: Counts, logs: seq<Entry>, i: nat)
    requires i < |logs|
  {
    multiset(logs[..i + 1])[logs[i]] > CountOf(seen, logs[i])
  }

  ghost predicate Increasing(at: seq<nat>) {
    forall j, k :: 0 <= j < k < |at| ==> at[j] < at[k]
  }

  /** The places of the new occurrences, in their order. */
  ghost predicate AreNewPlaces(seen: Counts, logs: seq<Entry>, at: seq<nat>) {
    Increasing(at) && forall i: nat :: i in at <==> i < |logs| && IsNew(seen, logs, i)
  }

  /** What is listed at these places. */
  ghost predicate Listed(logs: seq<Entry>, at: seq<nat>, sent: seq<Entry>) {
    |at| == |sent| && forall k :: 0 <= k < |at| ==> at[k] < |logs| && sent[k] == logs[at[k]]
  }

  lemma IsNewInFront(seen: Counts, front: seq<Entry>, x: Entry, i: nat)
    requires i < |front|
    ensures IsNew(seen, front + [x], i) <==> IsNew(seen, front, i)
  {
    assert (front + [x])[..i + 1] == front[..i + 1];
  }

  lemma AppendedElements(s: seq<nat>, n: nat, i: nat)
    ensures i in s + [n] <==> i in s || i == n
  {
  }

  lemma IncreasingOneMore(at: seq<nat>, n: nat)
    requires Increasing(at) && forall i :: i in at ==> i < n
    ensures Increasing(at + [n])
  {
    forall k | 0 <= k < |at| ensures at[k] < n {
      assert at[k] in at;
    }
  }

  lemma NewPlacesOfOneMore(seen: Counts, front: seq<Entry>, x: Entry, at: seq<nat>)
    requires AreNewPlaces(seen, front, at)
    ensures AreNewPlaces(seen, front + [x], if IsNew(seen, front + [x], |front|) then at + [|front|] else at)
  {
    var n := |front|;
    var all := if IsNew(seen, front + [x], n) then at + [n] else at;
    IncreasingOneMore(at, n);
    forall i: nat ensures i in all <==> i < |front + [x]| && IsNew(seen, front + [x], i) {
      AppendedElements(at, n, i);
      if i < n {
        IsNewInFront(seen, front, x, i);
      }
    }
  }

  lemma ListedOneMore(front: seq<Entry>, x: Entry, at: seq<nat>, sent: seq<Entry>)
    requires Listed(front, at, sent)
    ensures Listed(front + [x], at, sent) && Listed(front + [x], at + [|front|], sent + [x])
  {
  }

  lemma FreshOfOneMore(seen: Counts, front: seq<Entry>, x: Entry)
    ensures Fresh(seen, front + [x]) ==
            if IsNew(seen, front + [x], |front|) then Fresh(seen, front) + [x] else Fresh(seen, front)
  {
    var logs := front + [x];
    TallyCount(logs, x);
    assert logs[..|front|] == front && logs[..|front| + 1] == logs;
  }

  /** What a poll sends are the new occurrences, in the order in which the poll lists them. */
  lemma {:induction false} FreshInOrder(seen: Counts, logs: seq<Entry>) returns (at: seq<nat>)
    ensures AreNewPlaces(seen, logs, at) && Listed(logs, at, Fresh(seen, logs))
  {
    if logs == [] {
      at := [];
    } else {
      var front, x := logs[..|logs| - 1], logs[|logs| - 1];
      at := FreshInOrder(seen, front);
      assert logs == front + [x];
      FreshOfOneMore(seen, front, x);
      NewPlacesOfOneMore(seen, front, x, at);
      ListedOneMore(front, x, at, Fresh(seen, front));
      at := if IsNew(seen, front + [x], |front|) then at + [|front|] else at;
    }
  }

  lemma {:induction false} FramesGrow(polls: seq<Poll>, i: nat)
    requires i <= |polls|
    ensures FramesAfter(polls[..i]) <= FramesAfter(polls)
    decreases |polls| - i
  {
    if i == |polls| {
      assert polls[..i] == polls;
    } else {
      FramesGrow(polls, i + 1);
      assert polls[..i + 1][..i] == polls[..i];
    }
  }

  /**
   * The frames of each poll stand together, in the order of the polls: for a failed one its
   * error, for a successful one a log frame for each new occurrence, in the order of the poll,
   * and then the status.
   */
  lemma PollsAreReported(polls: seq<Poll>, i: nat) returns (from: nat, at: seq<nat>)
    requires i < |polls|
    ensures from == |FramesAfter(polls[..i])| && |FramesAfter(polls[..i + 1])| <= |FramesAfter(polls)|
    ensures FramesAfter(polls)[0] == Connecting && |FramesAfter(polls[..0])| == 1
    ensures var frames, to := FramesAfter(polls), |FramesAfter(polls[..i + 1])|;
            match polls[i]
            case Failed(error) => to == from + 1 && frames[from] == Error(error)
            case Got(logs) =>
              && to == from + |at| + 1 && frames[to - 1] == Connected
              && Increasing(at) && (forall k: nat :: k in at <==> k < |logs| && IsNew(SeenAfter(polls[..i]), logs, k))
              && forall k :: 0 <= k < |at| ==> at[k] < |logs| && frames[from + k] == Log(logs[at[k]])
  {
    var before, after := FramesAfter(polls[..i]), FramesAfter(polls[..i + 1]);
    from, at := |before|, [];
    FramesGrow(polls, 0);
    FramesGrow(polls, i + 1);
    assert polls[..i + 1][..i] == polls[..i];
    assert after == before + FramesOf(SeenAfter(polls[..i]), polls[i]);
    var frames := FramesAfter(polls);
    assert forall k :: 0 <= k < |after| ==> frames[k] == after[k];
    if polls[i].Got? {
      at := FreshInOrder(SeenAfter(polls[..i]), polls[i].logs);
    }
  }

  /** How many polls told the browser that it is connected. */
  function Connections(frames: seq<Frame>): nat {
    if frames == [] then 0
    else Connections(frames[..|frames| - 1]) + if frames[|frames| - 1] == Connected then 1 else 0
  }

  function Successes(polls: seq<Poll>): nat {
    if polls == [] then 0 else Successes(polls[..|polls| - 1]) + if polls[|polls| - 1].Got? then 1 else 0
  }

  lemma {:induction false} ConnectionsConcat(a: seq<Frame>, b: seq<Frame>)
    ensures Connections(a + b) == Connections(a) + Connections(b)
  {
    if b == [] {
      assert a + b == a;
    } else {
      ConnectionsConcat(a, b[..|b| - 1]);
      assert (a + b)[..|a + b| - 1] == a + b[..|b| - 1];
    }
  }

  lemma {:induction false} NoConnections(frames: seq<Frame>)
    requires forall k :: 0 <= k < |frames| ==> frames[k] != Connected
    ensures Connections(frames) == 0
  {
    if frames != [] {
      NoConnections(frames[..|frames| - 1]);
    }
  }

  lemma ConnectionsOfPoll(seen: Counts, poll: Poll)
    ensures Connections(FramesOf(seen, poll)) == if poll.Got? then 1 else 0
  {
    match poll
    case Failed(error) => NoConnections([Error(error)]);
    case Got(logs) =>
      var sent := LogFrames(Fresh(seen, logs));
      NoConnections(sent);
      assert (sent + [Connected])[..|sent|] == sent;
  }

  /** As many successful polls, as many messages that the bridge is connected. */
  lemma {:induction false} ConnectionsReceived(polls: seq<Poll>)
    ensures Connections(FramesAfter(polls)) == Successes(polls)
  {
    if polls == [] {
      NoConnections([Connecting]);
    } else {
      var front, last := polls[..|polls| - 1], polls[|polls| - 1];
      ConnectionsReceived(front);
      ConnectionsConcat(FramesAfter(front), FramesOf(SeenAfter(front), last));
      ConnectionsOfPoll(SeenAfter(front), last);
    }
  }

  // ---------------------------------------------------------------- the code

  /** The variables that createLiveTail closes over. */
  class Tail {
    var stopped: bool
    var timerSet: bool
    var callActive: bool
    var seen: Counts
    var sent: seq<Frame>
    ghost var polls: seq<Poll>

    /** What was sent and counted is what the polls so far give; one thing is awaited at a time. */
    ghost predicate Valid()
      reads this
    {
      && seen == SeenAfter(polls)
      && sent == FramesAfter(polls)
      && (if stopped then !timerSet else timerSet != callActive)
    }

    constructor (open: bool)
      ensures Valid() && polls == [] && stopped == !open && callActive == open
    {
      stopped, timerSet, callActive := !open, false, open;
      seen, sent := map[], [Connecting];
      polls := [];
    }

    /** Idempotent; cancels the timer and the call. */
    method Stop()
      requires Valid()
      modifies this
      ensures Valid() && stopped && !timerSet
      ensures sent == old(sent) && seen == old(seen) && polls == old(polls)
    {
      if stopped { return; }
      stopped := true;
      timerSet := false;
      callActive := false;
    }

    /** The timer fires. */
    method PollNow(open: bool)
      requires Valid() && timerSet
      modifies this
      ensures Valid() && stopped == !open && callActive == open && !timerSet
      ensures sent == old(sent) && seen == old(seen) && polls == old(polls)
    {
      timerSet := false;
      if stopped || !open {
        stopped := true;
        return;
      }
      callActive := true;
    }

    /** The callback of the RPC; a call that was cancelled may still report, and nothing happens. */
    method OnResponse(response: Poll)
      requires Valid() && (stopped || callActive)
      modifies this
      ensures Valid() && !callActive
      ensures if old(stopped) then stopped && sent == old(sent) && seen == old(seen) && polls == old(polls)
              else !stopped && timerSet && polls == old(polls) + [response]
    {
      callActive := false;
      if stopped { return; }
      ghost var counts, frames := seen, sent;
      Handle(response);
      OneMorePoll(polls, response, counts, frames, seen, sent);
      polls := polls + [response];
      timerSet := true;
    }

    /** The two branches of the callback. */
    method Handle(response: Poll)
      modifies this`sent, this`seen
      ensures sent == old(sent) + FramesOf(old(seen), response)
      ensures seen == if response.Got? then Updated(old(seen), response.logs) else old(seen)
    {
      match response {
        case Failed(error) => sent := sent + [Error(error)];
        case Got(logs) =>
          var current := SendFresh(logs);
          Remember(current);
          sent := sent + [Connected];
      }
    }

    /** The first loop: counts occurrences, and sends those beyond the count already seen. */
    method SendFresh(logs: seq<Entry>) returns (current: Counts)
      modifies this`sent
      ensures sent == old(sent) + LogFrames(Fresh(seen, logs)) && current == Tally(logs)
    {
      current := map[];
      var i := 0;
      while i < |logs|
        invariant 0 <= i <= |logs|
        invariant current == Tally(logs[..i])
        invariant sent == old(sent) + LogFrames(Fresh(seen, logs[..i]))
      {
        var e := logs[i];
        OneMoreEntry(seen, logs, i);
        var occurrence := CountOf(current, e) + 1;
        current := current[e := occurrence];
        if occurrence > CountOf(seen, e) {
          ConcatAssociative(old(sent), LogFrames(Fresh(seen, logs[..i])), [Log(e)]);
          sent := sent + [Log(e)];
        }
        i := i + 1;
      }
      assert logs[..i] == logs;
    }

    /** The second loop. */
    method Remember(current: Counts)
      modifies this`seen
      ensures seen == old(seen) + current
    {
      var keys := current.Keys;
      while keys != {}
        invariant keys <= current.Keys
        invariant seen == old(seen) + map e | e in current && e !in keys :: current[e]
        decreases |keys|
      {
        var e :| e in keys;
        seen := seen[e := current[e]];
        keys := keys - {e};
      }
      assert current == map e | e in current && e !in keys :: current[e];
    }
  }

  /** Counts and frames before and after one more poll. */
  lemma OneMorePoll(polls: seq<Poll>, poll: Poll, seen: Counts, sent: seq<Frame>, seen': Counts, sent': seq<Frame>)
    requires seen == SeenAfter(polls) && sent == FramesAfter(polls)
    requires seen' == if poll.Got? then Updated(seen, poll.logs) else seen
    requires sent' == sent + FramesOf(seen, poll)
    ensures seen' == SeenAfter(polls + [poll]) && sent' == FramesAfter(polls + [poll])
  {
    assert (polls + [poll])[..|polls|] == polls;
  }

  lemma OneMoreEntry(seen: Counts, logs: seq<Entry>, i: nat)
    requires i < |logs|
    ensures var e, before := logs[i], Tally(logs[..i]);
            && Tally(logs[..i + 1]) == before[e := CountOf(before, e) + 1]
            && LogFrames(Fresh(seen, logs[..i + 1])) ==
               if CountOf(before, e) + 1 > CountOf(seen, e) then LogFrames(Fresh(seen, logs[..i])) + [Log(e)]
               else LogFrames(Fresh(seen, logs[..i]))
  {
    assert logs[..i + 1][..i] == logs[..i];
  }

  // ---------------------------------------------------------------- exact accounting

  function EmittedOf(polls: seq<Poll>, e: Entry): nat {
    multiset(SentAfter(polls))[e]
  }

  /** The same, poll by poll. */
  function Copies(polls: seq<Poll>, e: Entry): nat {
    if polls == [] then 0 else
    var front, last := polls[..|polls| - 1], polls[|polls| - 1];
    Copies(front, e) + if last.Got? then Max(0, multiset(last.logs)[e] - CountOf(SeenAfter(front), e)) else 0
  }

  lemma {:induction false} CopiesAreSent(polls: seq<Poll>, e: Entry)
    ensures EmittedOf(polls, e) == Copies(polls, e)
  {
    if polls != [] {
      var front, last := polls[..|polls| - 1], polls[|polls| - 1];
      CopiesAreSent(front, e);
      if last.Got? {
        FreshCount(SeenAfter(front), last.logs, e);
      }
    }
  }

  /** By how much polls fell below the count seen before them, in total. */
  function Decreases(polls: seq<Poll>, e: Entry): nat {
    if polls == [] then 0 else
    var front, last := polls[..|polls| - 1], polls[|polls| - 1];
    Decreases(front, e) +
    if last.Got? && e in last.logs then Max(0, CountOf(SeenAfter(front), e) - multiset(last.logs)[e]) else 0
  }

  /** Copies sent = copies counted now + all decreases of the count so far. */
  lemma {:induction false} Accounting(polls: seq<Poll>, e: Entry)
    ensures EmittedOf(polls, e) == CountOf(SeenAfter(polls), e) + Decreases(polls, e)
  {
    if polls != [] {
      var front, last := polls[..|polls| - 1], polls[|polls| - 1];
      Accounting(front, e);
      if last.Got? {
        FreshCount(SeenAfter(front), last.logs, e);
        UpdatedCount(SeenAfter(front), last.logs, e);
      }
    }
  }

  /** At least as many copies were sent as any single poll contained. */
  lemma {:induction false} EmittedCoversEveryPoll(polls: seq<Poll>, i: nat, e: Entry)
    requires i < |polls| && polls[i].Got?
    ensures EmittedOf(polls, e) >= multiset(polls[i].logs)[e]
  {
    var front, last := polls[..|polls| - 1], polls[|polls| - 1];
    if i < |front| {
      EmittedCoversEveryPoll(front, i, e);
    } else {
      Accounting(polls, e);
      UpdatedCount(SeenAfter(front), last.logs, e);
    }
  }

  /** No poll with this entry has fewer copies than an earlier poll. */
  ghost predicate NeverFalls(polls: seq<Poll>, e: Entry) {
    forall i, j :: 0 <= i < j < |polls| && polls[i].Got? && polls[j].Got? && e in polls[j].logs ==>
      multiset(polls[i].logs)[e] <= multiset(polls[j].logs)[e]
  }

  lemma {:induction false} CountSeenInSomePoll(polls: seq<Poll>, e: Entry)
    ensures CountOf(SeenAfter(polls), e) == 0 ||
            exists i :: 0 <= i < |polls| && polls[i].Got? && e in polls[i].logs &&
                        multiset(polls[i].logs)[e] == CountOf(SeenAfter(polls), e)
  {
    if polls != [] {
      var front, last := polls[..|polls| - 1], polls[|polls| - 1];
      CountSeenInSomePoll(front, e);
      if last.Got? { UpdatedCount(SeenAfter(front), last.logs, e); }
    }
  }

  lemma {:induction false} NoDecreases(polls: seq<Poll>, e: Entry)
    requires NeverFalls(polls, e)
    ensures Decreases(polls, e) == 0
  {
    if polls != [] {
      NoDecreases(polls[..|polls| - 1], e);
      CountSeenInSomePoll(polls[..|polls| - 1], e);
    }
  }

  /** While counts never fall, the last poll tells how many copies were sent. */
  lemma EmittedIsLastCount(polls: seq<Poll>, e: Entry)
    requires NeverFalls(polls, e) && polls != [] && polls[|polls| - 1].Got? && e in polls[|polls| - 1].logs
    ensures EmittedOf(polls, e) == multiset(polls[|polls| - 1].logs)[e]
  {
    NoDecreases(polls, e);
    Accounting(polls, e);
    UpdatedCount(SeenAfter(polls[..|polls| - 1]), polls[|polls| - 1].logs, e);
  }

  // ---------------------------------------------------------------- records behind the entries

  /** Log records of the engine; several can look the same as entries. */
  type Record = nat

  /** What a successful poll shows of the records, and None for a failed one. */
  datatype Sight = Nothing | Visible(records: set<Record>)

  function WithEntry(look: Record -> Entry, records: set<Record>, e: Entry): set<Record> {
    set x | x in records && look(x) == e
  }

  function SightOf(look: Record -> Entry, v: Sight, e: Entry): set<Record> {
    if v.Visible? then WithEntry(look, v.records, e) else {}
  }

  /** Each poll reports the entry of every visible record, in any order, as often as there are such records. */
  ghost predicate Shows(look: Record -> Entry, sights: seq<Sight>, polls: seq<Poll>, e: Entry) {
    && |sights| == |polls|
    && forall i :: 0 <= i < |polls| ==>
         && (polls[i].Got? <==> sights[i].Visible?)
         && (polls[i].Got? ==> multiset(polls[i].logs)[e] == |SightOf(look, sights[i], e)|)
  }

  /** All records with this entry that were ever visible. */
  function Arrived(look: Record -> Entry, sights: seq<Sight>, e: Entry): set<Record> {
    if sights == [] then {}
    else Arrived(look, sights[..|sights| - 1], e) + SightOf(look, sights[|sights| - 1], e)
  }

  /** The records of the last poll that showed this entry at all. */
  function LastSeen(look: Record -> Entry, sights: seq<Sight>, e: Entry): set<Record> {
    if sights == [] then {} else
    var now := SightOf(look, sights[|sights| - 1], e);
    if now != {} then now else LastSeen(look, sights[..|sights| - 1], e)
  }

  /** Arrivals that a poll hides behind departures of the same entry, in total. */
  function Missed(look: Record -> Entry, sights: seq<Sight>, e: Entry): nat {
    if sights == [] then 0 else
    var front := sights[..|sights| - 1];
    Missed(look, front, e) + Hidden(LastSeen(look, front, e), SightOf(look, sights[|sights| - 1], e))
  }

  /** Those of one poll: an arrival is hidden by a departure, unless the entry is gone altogether. */
  function Hidden(before: set<Record>, now: set<Record>): nat {
    if now == {} then 0 else if |now - before| <= |before - now| then |now - before| else |before - now|
  }

  /** Records that were visible before, were gone when this entry was last seen, and are back, in total. */
  function Returned(look: Record -> Entry, sights: seq<Sight>, e: Entry): nat {
    if sights == [] then 0 else
    var front := sights[..|sights| - 1];
    Returned(look, front, e) + |Back(look, front, SightOf(look, sights[|sights| - 1], e), e)|
  }

  /** Of the records visible now, those that have been away. */
  function Back(look: Record -> Entry, front: seq<Sight>, now: set<Record>, e: Entry): set<Record> {
    now * Arrived(look, front, e) - LastSeen(look, front, e)
  }

  lemma {:induction false} SeenIsLastSeen(look: Record -> Entry, sights: seq<Sight>, polls: seq<Poll>, e: Entry)
    requires Shows(look, sights, polls, e)
    ensures CountOf(SeenAfter(polls), e) == |LastSeen(look, sights, e)|
  {
    if polls != [] {
      var n := |polls| - 1;
      SeenIsLastSeen(look, sights[..n], polls[..n], e);
      if polls[n].Got? { UpdatedCount(SeenAfter(polls[..n]), polls[n].logs, e); }
    }
  }

  lemma {:induction false} LastSeenAt(look: Record -> Entry, sights: seq<Sight>, e: Entry) returns (m: int)
    ensures -1 <= m < |sights|
    ensures LastSeen(look, sights, e) == if m == -1 then {} else SightOf(look, sights[m], e)
    ensures forall i :: m < i < |sights| ==> SightOf(look, sights[i], e) == {}
    ensures m >= 0 ==> SightOf(look, sights[m], e) != {}
    ensures LastSeen(look, sights, e) <= Arrived(look, sights, e)
  {
    m := -1;
    if sights != [] {
      var n := |sights| - 1;
      if SightOf(look, sights[n], e) != {} {
        m := n;
      } else {
        m := LastSeenAt(look, sights[..n], e);
        forall i | m < i < |sights| ensures SightOf(look, sights[i], e) == {} {
          if i < n { assert sights[..n][i] == sights[i]; }
        }
      }
    }
  }

  lemma {:induction false} ArrivedAt(look: Record -> Entry, sights: seq<Sight>, e: Entry, x: Record)
    requires x in Arrived(look, sights, e)
    ensures exists i :: 0 <= i < |sights| && x in SightOf(look, sights[i], e)
  {
    var n := |sights| - 1;
    if x !in SightOf(look, sights[n], e) {
      ArrivedAt(look, sights[..n], e, x);
      var i :| 0 <= i < n && x in SightOf(look, sights[..n][i], e);
      assert x in SightOf(look, sights[i], e);
    }
  }

  lemma SetSizes<T>(a: set<T>, b: set<T>)
    ensures |a + b| == |a| + |b - a|
    ensures |a| == |a - b| + |a * b| && |b| == |b - a| + |a * b|
  {
    assert a + b == a + (b - a);
    assert a == (a - b) + (a * b);
    assert b == (b - a) + (a * b);
  }

  lemma LastSeenArrived(look: Record -> Entry, sights: seq<Sight>, e: Entry)
    ensures LastSeen(look, sights, e) <= Arrived(look, sights, e)
  {
    var m := LastSeenAt(look, sights, e);
  }

  /** What is new since this entry was last seen has come for the first time or is back. */
  lemma NewOrBack(look: Record -> Entry, front: seq<Sight>, now: set<Record>, e: Entry)
    ensures |now - LastSeen(look, front, e)| == |now - Arrived(look, front, e)| + |Back(look, front, now, e)|
  {
    LastSeenArrived(look, front, e);
    assert now - LastSeen(look, front, e) == (now - Arrived(look, front, e)) + Back(look, front, now, e);
  }

  /** What one poll adds to both sides of the account. */
  lemma PollIsExact(look: Record -> Entry, front: seq<Sight>, before: set<Record>, now: set<Record>, e: Entry)
    requires before == LastSeen(look, front, e)
    ensures Max(0, |now| - |before|) + Hidden(before, now)
            == |Arrived(look, front, e) + now| - |Arrived(look, front, e)| + |Back(look, front, now, e)|
  {
    SetSizes(Arrived(look, front, e), now);
    SetSizes(before, now);
    assert before * now == now * before;
    NewOrBack(look, front, now, e);
  }

  lemma CopiesOfPoll(before: seq<Poll>, last: Poll, e: Entry)
    ensures Copies(before + [last], e) == Copies(before, e) +
              if last.Got? then Max(0, multiset(last.logs)[e] - CountOf(SeenAfter(before), e)) else 0
  {
    assert (before + [last])[..|before|] == before;
  }

  lemma ShowsFront(look: Record -> Entry, front: seq<Sight>, v: Sight, before: seq<Poll>, last: Poll, e: Entry)
    requires Shows(look, front + [v], before + [last], e) && |front| == |before|
    ensures Shows(look, front, before, e)
    ensures last.Got? <==> v.Visible?
    ensures last.Got? ==> multiset(last.logs)[e] == |SightOf(look, v, e)|
  {
    var sights, polls := front + [v], before + [last];
    forall i | 0 <= i < |before|
      ensures && (before[i].Got? <==> front[i].Visible?)
              && (before[i].Got? ==> multiset(before[i].logs)[e] == |SightOf(look, front[i], e)|)
    {
      assert polls[i] == before[i] && sights[i] == front[i];
    }
    assert polls[|before|] == last && sights[|front|] == v;
  }

  lemma OneMoreSight(look: Record -> Entry, front: seq<Sight>, v: Sight, e: Entry)
    ensures var before, now := LastSeen(look, front, e), SightOf(look, v, e);
            && Arrived(look, front + [v], e) == Arrived(look, front, e) + now
            && LastSeen(look, front + [v], e) == (if now != {} then now else before)
            && Missed(look, front + [v], e) == Missed(look, front, e) + Hidden(before, now)
            && Returned(look, front + [v], e) == Returned(look, front, e) + |Back(look, front, now, e)|
  {
    assert (front + [v])[..|front|] == front;
  }

  ghost predicate Balanced(look: Record -> Entry, sights: seq<Sight>, polls: seq<Poll>, e: Entry) {
    Copies(polls, e) + Missed(look, sights, e) == |Arrived(look, sights, e)| + Returned(look, sights, e)
  }

  /** Both sides of the account grow alike. */
  lemma OnePollMore(look: Record -> Entry, front: seq<Sight>, v: Sight, before: seq<Poll>, last: Poll, e: Entry)
    requires last.Got? <==> v.Visible?
    requires last.Got? ==> multiset(last.logs)[e] == |SightOf(look, v, e)|
    requires CountOf(SeenAfter(before), e) == |LastSeen(look, front, e)|
    requires Balanced(look, front, before, e)
    ensures Balanced(look, front + [v], before + [last], e)
  {
    OneMoreSight(look, front, v, e);
    PollIsExact(look, front, LastSeen(look, front, e), SightOf(look, v, e), e);
    CopiesOfPoll(before, last, e);
  }

  lemma BalancedWithLast(look: Record -> Entry, front: seq<Sight>, v: Sight, before: seq<Poll>, last: Poll, e: Entry)
    requires Shows(look, front + [v], before + [last], e) && |front| == |before|
    requires Balanced(look, front, before, e)
    ensures Balanced(look, front + [v], before + [last], e)
  {
    ShowsFront(look, front, v, before, last, e);
    SeenIsLastSeen(look, front, before, e);
    OnePollMore(look, front, v, before, last, e);
  }

  lemma {:induction false} StaysBalanced(look: Record -> Entry, sights: seq<Sight>, polls: seq<Poll>, e: Entry)
    requires Shows(look, sights, polls, e)
    ensures Balanced(look, sights, polls, e)
  {
    if polls != [] {
      var n := |polls| - 1;
      var front, v, before, last := sights[..n], sights[n], polls[..n], polls[n];
      assert sights == front + [v] && polls == before + [last];
      ShowsFront(look, front, v, before, last, e);
      StaysBalanced(look, front, before, e);
      BalancedWithLast(look, front, v, before, last, e);
    }
  }

  /**
   * Exactly what is delivered, whatever comes, goes and returns: copies sent for an entry, plus
   * arrivals hidden behind simultaneous departures, are the distinct records with that entry
   * plus those that came back.
   */
  lemma DeliveryIsExact(look: Record -> Entry, sights: seq<Sight>, polls: seq<Poll>, e: Entry)
    requires Shows(look, sights, polls, e)
    ensures EmittedOf(polls, e) + Missed(look, sights, e) == |Arrived(look, sights, e)| + Returned(look, sights, e)
  {
    StaysBalanced(look, sights, polls, e);
    CopiesAreSent(polls, e);
  }

  /** More copies than records are sent exactly when more records come back than arrivals are hidden. */
  lemma NeverOverDeliversIff(look: Record -> Entry, sights: seq<Sight>, polls: seq<Poll>, e: Entry)
    requires Shows(look, sights, polls, e)
    ensures EmittedOf(polls, e) <= |Arrived(look, sights, e)| <==> Returned(look, sights, e) <= Missed(look, sights, e)
  {
    DeliveryIsExact(look, sights, polls, e);
  }

  // ---------------------------------------------------------------- when nothing comes back

  /** Every record is visible in one contiguous block of the successful polls. */
  ghost predicate Contiguous(sights: seq<Sight>) {
    forall i, j, k, x ::
      (0 <= i < j < k < |sights| && sights[i].Visible? && sights[j].Visible? && sights[k].Visible?
       && x in sights[i].records && x in sights[k].records)
      ==> x in sights[j].records
  }

  /** No poll shows a record that was away when this entry was last seen. */
  ghost predicate NoReturns(look: Record -> Entry, sights: seq<Sight>, e: Entry) {
    forall i: nat :: i < |sights| ==> !Comeback(look, sights, i, e)
  }

  ghost predicate Comeback(look: Record -> Entry, sights: seq<Sight>, i: nat, e: Entry)
    requires i < |sights|
  {
    Back(look, sights[..i], SightOf(look, sights[i], e), e) != {}
  }

  lemma ComebacksOfFront(look: Record -> Entry, sights: seq<Sight>, e: Entry)
    requires sights != []
    ensures var n := |sights| - 1;
            NoReturns(look, sights, e) <==> NoReturns(look, sights[..n], e) && !Comeback(look, sights, n, e)
  {
    var front := sights[..|sights| - 1];
    forall i: nat | i < |front| ensures Comeback(look, sights, i, e) <==> Comeback(look, front, i, e) {
      assert front[..i] == sights[..i];
    }
  }

  lemma {:induction false} ReturnedIff(look: Record -> Entry, sights: seq<Sight>, e: Entry)
    ensures Returned(look, sights, e) == 0 <==> NoReturns(look, sights, e)
  {
    if sights != [] {
      ReturnedIff(look, sights[..|sights| - 1], e);
      ComebacksOfFront(look, sights, e);
    }
  }

  /** With contiguous visibility nothing comes back. */
  lemma ContiguousNeverReturns(look: Record -> Entry, sights: seq<Sight>, e: Entry)
    requires Contiguous(sights)
    ensures NoReturns(look, sights, e)
  {
    forall n: nat | n < |sights| ensures !Comeback(look, sights, n, e) {
      NothingBack(look, sights, n, e);
    }
  }

  lemma NothingBack(look: Record -> Entry, sights: seq<Sight>, n: nat, e: Entry)
    requires n < |sights| && Contiguous(sights)
    ensures Back(look, sights[..n], SightOf(look, sights[n], e), e) == {}
  {
    var now, before := SightOf(look, sights[n], e), LastSeen(look, sights[..n], e);
    var m := LastSeenAt(look, sights[..n], e);
    forall x | x in now && x in Arrived(look, sights[..n], e) ensures x in before {
      ArrivedAt(look, sights[..n], e, x);
      var i :| 0 <= i < n && x in SightOf(look, sights[..n][i], e);
      assert i <= m;
      StillVisible(look, sights, e, i, m, n, x);
    }
  }

  lemma StillVisible(look: Record -> Entry, sights: seq<Sight>, e: Entry, i: nat, m: nat, n: nat, x: Record)
    requires i <= m < n < |sights| && Contiguous(sights)
    requires x in SightOf(look, sights[i], e) && x in SightOf(look, sights[n], e) && SightOf(look, sights[m], e) != {}
    ensures x in SightOf(look, sights[m], e)
  {
  }

  /** The live tail never sends more copies of an entry than there are records with it. */
  lemma NeverOverDelivers(look: Record -> Entry, sights: seq<Sight>, polls: seq<Poll>, e: Entry)
    requires Shows(look, sights, polls, e) && Contiguous(sights)
    ensures EmittedOf(polls, e) <= |Arrived(look, sights, e)|
  {
    ContiguousNeverReturns(look, sights, e);
    ReturnedIff(look, sights, e);
    DeliveryIsExact(look, sights, polls, e);
  }

  /** A poll in which one record with this entry has come and another has gone. */
  ghost predicate Swap(look: Record -> Entry, sights: seq<Sight>, i: nat, e: Entry)
    requires i < |sights|
  {
    var before, now := LastSeen(look, sights[..i], e), SightOf(look, sights[i], e);
    now != {} && now - before != {} && before - now != {}
  }

  lemma MissedNow(look: Record -> Entry, sights: seq<Sight>, e: Entry)
    requires sights != []
    ensures var n := |sights| - 1;
            Missed(look, sights, e) == 0 <==> Missed(look, sights[..n], e) == 0 && !Swap(look, sights, n, e)
  {
  }

  ghost predicate NoSwaps(look: Record -> Entry, sights: seq<Sight>, e: Entry) {
    forall i: nat :: i < |sights| ==> !Swap(look, sights, i, e)
  }

  lemma SwapsOfFront(look: Record -> Entry, sights: seq<Sight>, e: Entry)
    requires sights != []
    ensures var n := |sights| - 1;
            NoSwaps(look, sights, e) <==> NoSwaps(look, sights[..n], e) && !Swap(look, sights, n, e)
  {
    var front := sights[..|sights| - 1];
    forall i: nat | i < |front| ensures Swap(look, sights, i, e) <==> Swap(look, front, i, e) {
      assert front[..i] == sights[..i];
    }
  }

  lemma {:induction false} MissedIff(look: Record -> Entry, sights: seq<Sight>, e: Entry)
    ensures Missed(look, sights, e) == 0 <==> NoSwaps(look, sights, e)
  {
    if sights != [] {
      MissedIff(look, sights[..|sights| - 1], e);
      MissedNow(look, sights, e);
      SwapsOfFront(look, sights, e);
    }
  }

  /**
   * As many copies are sent as there are records exactly when as many arrivals are hidden as
   * records come back; when none comes back, that is when no poll swaps one record for another
   * with the same entry.
   */
  lemma AllDeliveredIff(look: Record -> Entry, sights: seq<Sight>, polls: seq<Poll>, e: Entry)
    requires Shows(look, sights, polls, e)
    ensures EmittedOf(polls, e) == |Arrived(look, sights, e)| <==> Missed(look, sights, e) == Returned(look, sights, e)
    ensures NoReturns(look, sights, e) ==>
              (EmittedOf(polls, e) == |Arrived(look, sights, e)| <==> NoSwaps(look, sights, e))
  {
    DeliveryIsExact(look, sights, polls, e);
    ReturnedIff(look, sights, e);
    MissedIff(look, sights, e);
  }

  /** x goes and comes back while others stay. */
  function GoneAndBack(stay: set<Record>, x: Record): seq<Sight> {
    [] + [Visible(stay + {x})] + [Visible(stay)] + [Visible(stay + {x})]
  }

  lemma AccountOfGoneAndBack(look: Record -> Entry, stay: set<Record>, x: Record, e: Entry)
    requires stay != {} && x !in stay && WithEntry(look, stay + {x}, e) == stay + {x}
    ensures var sights := GoneAndBack(stay, x);
            Arrived(look, sights, e) == stay + {x} && Returned(look, sights, e) == 1 && Missed(look, sights, e) == 0
  {
    var with, without := Visible(stay + {x}), Visible(stay);
    assert SightOf(look, with, e) == stay + {x};
    assert SightOf(look, without, e) == stay;
    OneMoreSight(look, [], with, e);
    OneMoreSight(look, [] + [with], without, e);
    OneMoreSight(look, [] + [with] + [without], with, e);
    assert (stay + {x}) * (stay + {x}) - stay == {x};
    assert stay - (stay + {x}) == {};
  }

  /**
   * Records that look the same: when one leaves and comes back while others stay, one copy more
   * is sent than there are records.
   */
  lemma OverDeliveryOnReturn(look: Record -> Entry, stay: set<Record>, x: Record, polls: seq<Poll>, e: Entry)
    requires stay != {} && x !in stay && WithEntry(look, stay + {x}, e) == stay + {x}
    requires Shows(look, GoneAndBack(stay, x), polls, e)
    ensures !Contiguous(GoneAndBack(stay, x))
    ensures |Arrived(look, GoneAndBack(stay, x), e)| == |stay| + 1 && EmittedOf(polls, e) == |stay| + 2
  {
    var s := GoneAndBack(stay, x);
    assert x in s[0].records && x !in s[1].records && x in s[2].records;
    AccountOfGoneAndBack(look, stay, x, e);
    DeliveryIsExact(look, s, polls, e);
  }

  function PollsOfTwo(e: Entry): seq<Poll> {
    [] + [Got([e, e])] + [Got([e])] + [Got([e, e])]
  }

  lemma TwoAreShown(look: Record -> Entry, e: Entry)
    requires look(0) == e && look(1) == e
    ensures Shows(look, GoneAndBack({0}, 1), PollsOfTwo(e), e)
  {
    var s, p := GoneAndBack({0}, 1), PollsOfTwo(e);
    assert s[0] == s[2] == Visible({0} + {1}) && s[1] == Visible({0});
    assert p[0] == p[2] == Got([e, e]) && p[1] == Got([e]);
    assert WithEntry(look, {0} + {1}, e) == {0} + {1} && WithEntry(look, {0}, e) == {0};
    assert multiset([e, e])[e] == 2 && multiset([e])[e] == 1;
  }

  /** The smallest such run: two records, and three copies. */
  lemma ThreeCopiesOfTwo(look: Record -> Entry, e: Entry)
    requires look(0) == e && look(1) == e
    ensures Shows(look, GoneAndBack({0}, 1), PollsOfTwo(e), e)
    ensures |Arrived(look, GoneAndBack({0}, 1), e)| == 2 && EmittedOf(PollsOfTwo(e), e) == 3
  {
    var one: set<Record> := {0};
    assert WithEntry(look, one + {1}, e) == one + {1};
    TwoAreShown(look, e);
    OverDeliveryOnReturn(look, one, 1, PollsOfTwo(e), e);
  }

  /** A record that is alone under its entry and comes back is not sent again: its count was kept. */
  lemma LoneReturnIsNotRepeated(look: Record -> Entry, sights: seq<Sight>, polls: seq<Poll>, e: Entry, x: Record)
    requires Shows(look, sights, polls, e) && Arrived(look, sights, e) == {x}
    ensures EmittedOf(polls, e) == 1
  {
    DeliveryIsExact(look, sights, polls, e);
    AloneNeverReturns(look, sights, e, x);
  }

  /** Of a record that is alone, nothing is hidden and nothing is back. */
  lemma AloneIsPlain(look: Record -> Entry, front: seq<Sight>, now: set<Record>, e: Entry, x: Record)
    requires now <= {x} && LastSeen(look, front, e) == Arrived(look, front, e) <= {x}
    ensures Hidden(LastSeen(look, front, e), now) == 0 && Back(look, front, now, e) == {}
    ensures now == {} || now == Arrived(look, front, e) + now
  {
    assert now == {} || now == {x};
    assert LastSeen(look, front, e) == {} || LastSeen(look, front, e) == {x};
  }

  lemma {:induction false} AloneNeverReturns(look: Record -> Entry, sights: seq<Sight>, e: Entry, x: Record)
    requires Arrived(look, sights, e) <= {x}
    ensures Missed(look, sights, e) == 0 && Returned(look, sights, e) == 0
    ensures LastSeen(look, sights, e) == Arrived(look, sights, e)
  {
    if sights != [] {
      var front, now := sights[..|sights| - 1], SightOf(look, sights[|sights| - 1], e);
      AloneNeverReturns(look, front, e, x);
      AloneIsPlain(look, front, now, e, x);
    }
  }
}
