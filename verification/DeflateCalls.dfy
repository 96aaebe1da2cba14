/** What a call of deflate() is asked for and what it and the compression functions report. */
module DeflateCalls {

  datatype FlushMode = NoFlush | PartialFlush | SyncFlush | FullFlush | Finish | Block

  datatype BlockState = NeedMore | BlockDone | FinishStarted | FinishDone

  datatype Code = Ok | StreamEnd | StreamError | BufError

  /** RANK: Z_BLOCK lies between Z_NO_FLUSH and Z_PARTIAL_FLUSH. */
  function Rank(flush: FlushMode): int {
    match flush
    case NoFlush => 0
    case Block => 1
    case PartialFlush => 2
    case SyncFlush => 4
    case FullFlush => 6
    case Finish => 8
  }

  /** One call: input added to what is left of the earlier input, room for output, flush. */
  datatype Call<T> = Call(more: seq<T>, room: nat, flush: FlushMode)

  /** All the input that a sequence of calls gives. */
  function AllInput<T>(calls: seq<Call<T>>): seq<T> {
    if calls == [] then [] else AllInput(calls[..|calls| - 1]) + calls[|calls| - 1].more
  }

  /** All the room that a sequence of calls gives. */
  function AllRoom<T>(calls: seq<Call<T>>): nat {
    if calls == [] then 0 else AllRoom(calls[..|calls| - 1]) + calls[|calls| - 1].room
  }

  lemma NextCall<T>(calls: seq<Call<T>>, i: nat)
    requires i < |calls|
    ensures AllInput(calls[..i + 1]) == AllInput(calls[..i]) + calls[i].more
    ensures AllRoom(calls[..i + 1]) == AllRoom(calls[..i]) + calls[i].room
  {
    assert calls[..i + 1][..i] == calls[..i];
  }

  /** The rank of the last flush value for which there was room, or less than any. */
  function LastRank<T>(calls: seq<Call<T>>): int {
    if calls == [] then -2
    else
      var last := calls[|calls| - 1];
      if last.room == 0 then LastRank(calls[..|calls| - 1]) else Rank(last.flush)
  }

  predicate AsksToFinish<T>(calls: seq<Call<T>>) {
    exists i :: 0 <= i < |calls| && calls[i].flush.Finish?
  }

  /** After the calls before, a call that has room and something to do: more input, a higher flush, or
      the end. */
  predicate Welcome<T>(before: seq<Call<T>>, call: Call<T>) {
    && call.room > 0 && !AsksToFinish(before)
    && (|call.more| > 0 || call.flush.Finish? || Rank(call.flush) > LastRank(before))
  }

  /** The refusals of deflate(): a flush after the end was asked for and reached; no room; nothing to do;
      and input after the end. Bytes still pending are delivered first, and may take all the room. */
  predicate WrongFlush(finished: bool, flush: FlushMode) {
    finished && !flush.Finish?
  }

  predicate Refused(finished: bool, input: nat, pending: nat, room: nat, lastRank: int, flush: FlushMode) {
    && !WrongFlush(finished, flush)
    && (|| room == 0
        || (pending == 0 && input == 0 && Rank(flush) <= lastRank && !flush.Finish?)
        || (finished && input != 0 && room > pending))
  }

  /** What the calls so far leave behind for these checks. */
  predicate Follows<T>(lastRank: int, finished: bool, calls: seq<Call<T>>) {
    (lastRank <= LastRank(calls) || finished) && (finished ==> AsksToFinish(calls))
  }

  lemma FollowsOn<T>(before: seq<Call<T>>, call: Call<T>, lastRank: int, finished: bool, lastRank': int, finished': bool)
    requires Follows(lastRank, finished, before)
    requires (finished' ==> finished || call.flush.Finish?) && (finished ==> finished')
    requires if WrongFlush(finished, call.flush) || call.room == 0 then lastRank' == lastRank else lastRank' <= Rank(call.flush)
    ensures Follows(lastRank', finished', before + [call])
  {
    var calls := before + [call];
    assert calls[..|calls| - 1] == before;
    if AsksToFinish(before) {
      var i :| 0 <= i < |before| && before[i].flush.Finish?;
      assert calls[i] == before[i];
    }
    assert calls[|before|] == call;
  }

  lemma NotRefused<T>(before: seq<Call<T>>, call: Call<T>, lastRank: int, finished: bool, input: nat, pending: nat)
    requires Follows(lastRank, finished, before) && Welcome(before, call) && input >= |call.more|
    ensures !WrongFlush(finished, call.flush) && !Refused(finished, input, pending, call.room, lastRank, call.flush)
  {
  }
}
