/**
 The bot's main loop: each cycle polls the review API with the current time
 cursor, turns the newest homework into a status message and sends it, and
 catches every failure of those stages; then the cursor moves to the clock
 reading taken at the end of the cycle, whatever the cycle came to.
 The clock, the HTTP answers and the chat delivery are inputs and outputs of
 the model rather than calls.
 */
module PollLoop {
  import opened PyJson
  import opened Homework

  /** Seconds slept between two polls; the first poll looks this far back. */
  const RetryPeriod: int := 600

  /** What one cycle came to: a message handed to the chat, nothing to do, or a caught failure. */
  datatype Report = Sent(message: string) | Quiet | Caught(failure: Failure)

  /** The newest homework of a well-shaped response, or `JNull` when there is none. */
  function Newest(body: Json): (h: Json)
    requires WellShaped(body)
    ensures h == JNull <==> body.fields["homeworks"].items == [] || body.fields["homeworks"].items[0] == JNull
    ensures h != JNull ==> h == body.fields["homeworks"].items[0]
  {
    match CheckResponse(body)
    case Ok(Record(homework)) => homework
    case _ => JNull
  }

  /** The poll succeeded and its newest homework is a record `parse_status` accepts. */
  predicate Delivers(fetch: Fetch) {
    && fetch.Response?
    && fetch.statusCode == 200
    && WellShaped(fetch.body)
    && ParseStatus(Newest(fetch.body)).Ok?
  }

  /**
   The body of the `try` in `main`, with its `except Exception`: every stage
   that raises ends the cycle as `Caught`, and a `None` from a stage ends it
   quietly.
   */
  function Cycle(fetch: Fetch): (r: Report)
    ensures r.Sent? <==> Delivers(fetch)
    ensures r.Sent? ==> r.message == ParseStatus(Newest(fetch.body)).value
    ensures r == Quiet <==> fetch.Transport? || fetch == Response(200, JNull)
                            || (fetch.Response? && fetch.statusCode == 200 && WellShaped(fetch.body)
                                && Newest(fetch.body) == JNull)
    ensures r.Caught? && fetch.Response? && fetch.statusCode != 200 ==> r.failure == RaiseNone(fetch.statusCode)
    ensures r.Caught? && fetch.Response? && fetch.statusCode == 200 && !WellShaped(fetch.body)
            ==> r.failure == CheckResponse(fetch.body).failure
    ensures r.Caught? && fetch.Response? && fetch.statusCode == 200 && WellShaped(fetch.body)
            ==> r.failure == ParseStatus(Newest(fetch.body)).failure
  {
    match GetApiAnswer(fetch)
    case Err(e) => Caught(e)
    case Ok(response) =>
      if response == JNull then Quiet
      else
        match CheckResponse(response)
        case Err(e) => Caught(e)
        case Ok(NoRecord) => Quiet
        case Ok(Record(homework)) =>
          if homework == JNull then Quiet
          else
            match ParseStatus(homework)
            case Err(e) => Caught(e)
            case Ok(message) => Sent(message)
  }

  /** The messages a cycle hands to the chat: none or one. */
  function Outbox(r: Report): (out: seq<string>)
    ensures r.Sent? ==> out == [r.message]
    ensures !r.Sent? ==> out == []
  {
    if r.Sent? then [r.message] else []
  }

  /** One turn of the loop: what the API answered, and the clock reading after the cycle. */
  datatype Poll = Poll(fetch: Fetch, now: int)

  /** Every message the loop hands to the chat over a run of polls, in order. */
  function Messages(polls: seq<Poll>): seq<string>
  {
    if polls == [] then [] else Outbox(Cycle(polls[0].fetch)) + Messages(polls[1..])
  }

  lemma {:induction false} MessagesAppend(polls: seq<Poll>, more: seq<Poll>)
    ensures Messages(polls + more) == Messages(polls) + Messages(more)
    decreases |polls|
  {
    if polls == [] {
      assert polls + more == more;
    } else {
      assert (polls + more)[1..] == polls[1..] + more;
      MessagesAppend(polls[1..], more);
    }
  }

  /** A run sends at most one message per cycle. */
  lemma {:induction false} MessagesAtMostOnePerCycle(polls: seq<Poll>)
    ensures |Messages(polls)| <= |polls|
    decreases |polls|
  {
    if polls != [] {
      MessagesAtMostOnePerCycle(polls[1..]);
    }
  }

  /** A run in which no poll delivers sends nothing: no answer, an empty list and every failure are silent. */
  lemma {:induction false} SilentRun(polls: seq<Poll>)
    requires forall k :: 0 <= k < |polls| ==> !Delivers(polls[k].fetch)
    ensures Messages(polls) == []
    decreases |polls|
  {
    if polls != [] {
      SilentRun(polls[1..]);
    }
  }

  /**
   There is no deduplication: when every poll of a run yields a message, the
   run sends exactly that many messages, even if they are all the same text.
   */
  lemma {:induction false} EveryDeliveringPollSends(polls: seq<Poll>)
    requires forall k :: 0 <= k < |polls| ==> Delivers(polls[k].fetch)
    ensures |Messages(polls)| == |polls|
    ensures forall k :: 0 <= k < |polls| ==> Messages(polls)[k] == Cycle(polls[k].fetch).message
    decreases |polls|
  {
    if polls != [] {
      var tail := polls[1..];
      EveryDeliveringPollSends(tail);
      assert Cycle(polls[0].fetch).Sent?;
      assert Messages(polls) == [Cycle(polls[0].fetch).message] + Messages(tail);
      forall k | 0 < k < |polls| ensures Messages(polls)[k] == Cycle(polls[k].fetch).message {
        assert polls[k] == tail[k - 1];
      }
    }
  }

  /** The same successful answer polled `n` times sends the same text `n` times. */
  lemma RepeatedAnswerResent(poll: Poll, n: nat, message: string)
    requires Cycle(poll.fetch) == Sent(message)
    ensures Messages(seq(n, _ => poll)) == seq(n, _ => message)
  {
    var polls := seq(n, _ => poll);
    EveryDeliveringPollSends(polls);
  }

  /**
   A 200 answer whose newest homework has a str name and a known status sends
   the message for that name and status, and the message reads back as them.
   */
  lemma CycleDeliversNewestStatus(fields: map<string, Json>, rest: seq<Json>, record: map<string, Json>,
                                  name: string, status: string)
    requires "homeworks" in fields && fields["homeworks"] == JList([JObj(record)] + rest)
    requires "homework_name" in record && record["homework_name"] == JStr(name)
    requires "status" in record && record["status"] == JStr(status)
    requires status in HomeworkVerdicts
    ensures Cycle(Response(200, JObj(fields))) == Sent(StatusMessage(name, HomeworkVerdicts[status]))
    ensures ReadStatusMessage(Cycle(Response(200, JObj(fields))).message) == Some((name, status))
  {
    StatusMessageRoundTrip(name, status);
  }

  /** Three cycles written out: an approved homework, an empty list, and a 503 answer. */
  lemma EndToEndCycles()
    ensures Cycle(Response(200, JObj(map["homeworks" := JList([JObj(map["homework_name" := JStr("hw1"),
                                                                        "status" := JStr("approved")])])])))
            == Sent(StatusMessage("hw1", HomeworkVerdicts["approved"]))
    ensures Cycle(Response(200, JObj(map["homeworks" := JList([])]))) == Quiet
    ensures Cycle(Response(503, JNull)) == Caught(RaiseNone(503))
  {
  }

  /**
   `main`, run over a finite prefix of its endless loop. `start` is the clock
   reading before the loop; `requested` holds the `from_date` cursor each poll
   was sent with, `sent` the messages handed to the chat, and `cursor` the
   cursor after the last cycle.
   */
  method Run(start: int, polls: seq<Poll>) returns (requested: seq<int>, sent: seq<string>, cursor: int)
    ensures |requested| == |polls|
    ensures |polls| > 0 ==> requested[0] == start - RetryPeriod
    ensures forall k :: 0 < k < |polls| ==> requested[k] == polls[k - 1].now
    ensures cursor == if polls == [] then start - RetryPeriod else polls[|polls| - 1].now
    ensures sent == Messages(polls)
    ensures |sent| <= |polls|
  {
    var timestamp := start - RetryPeriod;
    requested, sent := [], [];
    var i := 0;
    while i < |polls|
      invariant 0 <= i <= |polls|
      invariant |requested| == i
      invariant i > 0 ==> requested[0] == start - RetryPeriod
      invariant forall k :: 0 < k < i ==> requested[k] == polls[k - 1].now
      invariant timestamp == if i == 0 then start - RetryPeriod else polls[i - 1].now
      invariant sent == Messages(polls[..i])
      invariant |sent| <= i
    {
      requested := requested + [timestamp];
      var report := Cycle(polls[i].fetch);
      if report.Sent? {
        sent := sent + [report.message];
      }
      assert polls[..i + 1] == polls[..i] + [polls[i]];
      MessagesAppend(polls[..i], [polls[i]]);
      timestamp := polls[i].now;
      i := i + 1;
    }
    assert polls[..i] == polls;
    cursor := timestamp;
  }
}
