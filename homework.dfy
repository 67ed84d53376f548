/**
 The request, validation and translation stages of the homework-status bot:
 the verdict table, `get_api_answer` over an abstract fetch outcome,
 `check_response` and `parse_status`. Python's exceptions become `Err` values
 that carry what was raised.
 */
module Homework {
  import opened PyJson

  /** The three review statuses and the sentence that announces each. */
  const HomeworkVerdicts: map<string, string> := map[
    "approved" := "Работа проверена: ревьюеру всё понравилось. Ура!",
    "reviewing" := "Работа взята на проверку ревьюером.",
    "rejected" := "Работа проверена: у ревьюера есть замечания."
  ]

  /** The Python exception class a failure is raised as. */
  datatype ErrorKind = TypeErr | KeyErr | ValueErr

  /** What a stage raised, with enough detail to tell two raises of one class apart. */
  datatype Failure =
    | RaiseNone(statusCode: int)      // `raise None` after a non-200 answer
    | ResponseNotDict                 // the response is not a dict
    | MissingKey(key: string)         // a required key is absent
    | HomeworksNotList                // `homeworks` holds something other than a list
    | NotIterable(value: Json)        // `in` applied to an int, a bool or None
    | BadSubscript(value: Json)       // a str or a list subscripted with a str key
    | UnhashableStatus(status: Json)  // a list or dict looked up in the verdict table
    | UnknownStatus(status: Json)     // a status the verdict table does not know

  function Kind(f: Failure): (k: ErrorKind)
    ensures k == KeyErr <==> f.MissingKey?
    ensures k == ValueErr <==> f.UnknownStatus?
  {
    match f
    case MissingKey(_) => KeyErr
    case UnknownStatus(_) => ValueErr
    case _ => TypeErr
  }

  datatype Result<T> = Ok(value: T) | Err(failure: Failure)

  datatype Option<T> = None | Some(value: T)

  /**
   What one HTTP poll of the review API came to. `Transport` is a
   `requests.exceptions.RequestException`: a network failure, a timeout, or a
   200 body that does not decode as JSON. `Response` carries the status code
   and, for a 200 answer, the decoded body.
   */
  datatype Fetch = Transport | Response(statusCode: int, body: Json)

  /**
   `get_api_answer`: `Ok(JNull)` is the `None` it returns after a transport
   failure; a non-200 answer ends in the `TypeError` that `raise None` raises.
   */
  function GetApiAnswer(fetch: Fetch): (r: Result<Json>)
    ensures r.Err? <==> fetch.Response? && fetch.statusCode != 200
    ensures r.Err? ==> Kind(r.failure) == TypeErr
    ensures fetch.Transport? ==> r == Ok(JNull)
    ensures r.Ok? && fetch.Response? ==> r.value == fetch.body
  {
    match fetch
    case Transport => Ok(JNull)
    case Response(code, body) =>
      if code != 200 then Err(RaiseNone(code)) else Ok(body)
  }

  /** What `check_response` hands back on a well-shaped response. */
  datatype Extracted = NoRecord | Record(homework: Json)

  /** The response is a dict whose `homeworks` key holds a list. */
  predicate WellShaped(response: Json) {
    response.JObj? && "homeworks" in response.fields && response.fields["homeworks"].JList?
  }

  /**
   `check_response`: three shape checks in a fixed order, then the newest
   homework (the first element of the list), or `NoRecord` for an empty list.
   */
  function CheckResponse(response: Json): (r: Result<Extracted>)
    ensures !response.JObj? ==> r == Err(ResponseNotDict)
    ensures response.JObj? && "homeworks" !in response.fields ==> r == Err(MissingKey("homeworks"))
    ensures r.Ok? <==> WellShaped(response)
    ensures r.Err? ==> Kind(r.failure) == (if response.JObj? && "homeworks" !in response.fields then KeyErr else TypeErr)
    ensures r.Ok? ==> (r.value == NoRecord <==> response.fields["homeworks"].items == [])
    ensures r.Ok? && r.value.Record? ==> r.value.homework == response.fields["homeworks"].items[0]
  {
    if !response.JObj? then Err(ResponseNotDict)
    else if "homeworks" !in response.fields then Err(MissingKey("homeworks"))
    else if !response.fields["homeworks"].JList? then Err(HomeworksNotList)
    else
      var homeworks := response.fields["homeworks"].items;
      if |homeworks| == 0 then Ok(NoRecord) else Ok(Record(homeworks[0]))
  }

  /** Keys other than `homeworks` never change what `check_response` does. */
  lemma CheckResponseIgnoresOtherKeys(fields: map<string, Json>, key: string, v: Json)
    requires key != "homeworks"
    ensures CheckResponse(JObj(fields[key := v])) == CheckResponse(JObj(fields))
    ensures CheckResponse(JObj(fields - {key})) == CheckResponse(JObj(fields))
  {
  }

  /** Only the first homework of the list is ever looked at. */
  lemma CheckResponseReadsOnlyNewest(fields: map<string, Json>, first: Json, older: seq<Json>, older': seq<Json>)
    ensures CheckResponse(JObj(fields["homeworks" := JList([first] + older)]))
         == CheckResponse(JObj(fields["homeworks" := JList([first] + older')]))
         == Ok(Record(first))
  {
  }

  const MessagePrefix := "Изменился статус проверки работы \""

  /** What follows the name: the closing quote mark, a full stop, a space, the verdict. */
  function Closing(verdict: string): (c: string)
    ensures |c| == 3 + |verdict| && c[3..] == verdict
  {
    "\". " + verdict
  }

  /** The f-string of `parse_status`: the homework's name in quotes, then the verdict. */
  function StatusMessage(name: string, verdict: string): (r: string)
    ensures OccursAt(r, MessagePrefix, 0)
    ensures OccursAt(r, name, |MessagePrefix|)
    ensures OccursAt(r, verdict, |r| - |verdict|)
    ensures |r| == |MessagePrefix| + |name| + 3 + |verdict|
  {
    var r := MessagePrefix + (name + Closing(verdict));
    assert r[..|MessagePrefix|] == MessagePrefix;
    assert r[|MessagePrefix|..|MessagePrefix| + |name|] == name;
    assert r[|r| - |verdict|..] == verdict;
    r
  }

  /**
   `parse_status`. On a dict: `homework_name` must be present, then `status`,
   then the status must be a key of the verdict table. On anything else the
   first `in` test already fails the way Python fails it: a substring test on
   a str, an element test on a list, a `TypeError` on an int, a bool or None;
   and where that test passes, subscripting the str or list with a str key
   raises a `TypeError`.
   */
  function ParseStatus(homework: Json): (r: Result<string>)
    ensures !homework.JObj? ==> r.Err?
    ensures homework.JObj? && "homework_name" !in homework.fields ==> r == Err(MissingKey("homework_name"))
    ensures homework.JObj? && "homework_name" in homework.fields && "status" !in homework.fields
            ==> r == Err(MissingKey("status"))
    ensures r.Ok? <==> homework.JObj? && "homework_name" in homework.fields && "status" in homework.fields
                       && homework.fields["status"].JStr? && homework.fields["status"].s in HomeworkVerdicts
    ensures r.Ok? ==> r.value == StatusMessage(Str(homework.fields["homework_name"]),
                                               HomeworkVerdicts[homework.fields["status"].s])
    ensures r.Err? && Kind(r.failure) == ValueErr
            <==> homework.JObj? && "homework_name" in homework.fields && "status" in homework.fields
                 && !Unhashable(homework.fields["status"])
                 && !(homework.fields["status"].JStr? && homework.fields["status"].s in HomeworkVerdicts)
  {
    match homework
    case JObj(fields) =>
      if "homework_name" !in fields then Err(MissingKey("homework_name"))
      else if "status" !in fields then Err(MissingKey("status"))
      else
        var status := fields["status"];
        if Unhashable(status) then Err(UnhashableStatus(status))
        else if !(status.JStr? && status.s in HomeworkVerdicts) then Err(UnknownStatus(status))
        else Ok(StatusMessage(Str(fields["homework_name"]), HomeworkVerdicts[status.s]))
    case JStr(s) =>
      if HasSubstring(s, "homework_name") then Err(BadSubscript(homework))
      else Err(MissingKey("homework_name"))
    case JList(items) =>
      if JStr("homework_name") in items then Err(BadSubscript(homework))
      else Err(MissingKey("homework_name"))
    case _ => Err(NotIterable(homework))
  }

  /** Keys other than `homework_name` and `status` never change what `parse_status` does. */
  lemma ParseStatusIgnoresOtherKeys(fields: map<string, Json>, key: string, v: Json)
    requires key != "homework_name" && key != "status"
    ensures ParseStatus(JObj(fields[key := v])) == ParseStatus(JObj(fields))
  {
  }

  /**
   A record without `homework_name` reports that key as missing, whether or
   not it holds a `status` and whatever that status is.
   */
  lemma ParseStatusNameCheckedFirst(fields: map<string, Json>)
    requires "homework_name" !in fields
    ensures ParseStatus(JObj(fields)) == Err(MissingKey("homework_name"))
  {
  }

  /** A str stands in for a record only by failing: a `KeyError` unless it mentions the key. */
  lemma {:induction false} ParseStatusOnStr(s: string)
    ensures ParseStatus(JStr(s)) == if exists i :: OccursAt(s, "homework_name", i)
                                    then Err(BadSubscript(JStr(s)))
                                    else Err(MissingKey("homework_name"))
  {
    HasSubstringOccurs(s, "homework_name");
  }

  /** The text after the verdict's opening quote mark, for a known status. */
  function Ending(status: string): (e: string)
    requires status in HomeworkVerdicts
    ensures 3 <= |e|
  {
    Closing(HomeworkVerdicts[status])
  }

  predicate EndsWith(s: string, suffix: string) {
    |suffix| <= |s| && s[|s| - |suffix|..] == suffix
  }

  /** Splits `rest` into a name and the ending of `status`, when it ends that way. */
  function ReadEnding(rest: string, status: string): (r: Option<(string, string)>)
    requires status in HomeworkVerdicts
    ensures r.Some? <==> EndsWith(rest, Ending(status))
    ensures r.Some? ==> r.value.1 == status && rest == r.value.0 + Ending(status)
  {
    if EndsWith(rest, Ending(status)) then
      var name := rest[..|rest| - |Ending(status)|];
      assert rest == name + Ending(status);
      Some((name, status))
    else None
  }

  /**
   Reads a status message back: the name between the quote marks and the
   status whose verdict closes the message.
   */
  function ReadStatusMessage(msg: string): (r: Option<(string, string)>)
    ensures r.Some? ==> r.value.1 in HomeworkVerdicts
    ensures r.Some? ==> msg == StatusMessage(r.value.0, HomeworkVerdicts[r.value.1])
  {
    if !(|MessagePrefix| <= |msg| && msg[..|MessagePrefix|] == MessagePrefix) then None
    else
      var rest := msg[|MessagePrefix|..];
      assert msg == MessagePrefix + rest;
      var r :=
        if ReadEnding(rest, "approved").Some? then ReadEnding(rest, "approved")
        else if ReadEnding(rest, "reviewing").Some? then ReadEnding(rest, "reviewing")
        else ReadEnding(rest, "rejected");
      if r.Some? then
        MessageSplit(r.value.0, r.value.1);
        r
      else None
  }

  /** The template is the prefix followed by the name and the status's ending. */
  lemma MessageSplit(name: string, status: string)
    requires status in HomeworkVerdicts
    ensures StatusMessage(name, HomeworkVerdicts[status]) == MessagePrefix + (name + Ending(status))
  {
  }

  /** Two message endings for different statuses differ in one of their last two characters. */
  lemma EndingsDiffer(s: string, t: string)
    requires s in HomeworkVerdicts && t in HomeworkVerdicts && s != t
    ensures Ending(s)[|Ending(s)| - 1] != Ending(t)[|Ending(t)| - 1]
         || Ending(s)[|Ending(s)| - 2] != Ending(t)[|Ending(t)| - 2]
  {
  }

  /** A message ending with one status's ending does not end with another's. */
  lemma EndsWithOneEnding(rest: string, s: string, t: string)
    requires s in HomeworkVerdicts && t in HomeworkVerdicts && s != t
    requires EndsWith(rest, Ending(s))
    ensures !EndsWith(rest, Ending(t))
  {
    EndingsDiffer(s, t);
    var es, et := Ending(s), Ending(t);
    assert rest[|rest| - 1] == es[|es| - 1];
    assert rest[|rest| - 2] == es[|es| - 2];
  }

  /** Every status message reads back as the name and the status it was made from. */
  lemma {:induction false} StatusMessageRoundTrip(name: string, status: string)
    requires status in HomeworkVerdicts
    ensures ReadStatusMessage(StatusMessage(name, HomeworkVerdicts[status])) == Some((name, status))
  {
    var rest := name + Ending(status);
    MessageSplit(name, status);
    var msg := MessagePrefix + rest;
    assert msg[..|MessagePrefix|] == MessagePrefix;
    assert msg[|MessagePrefix|..] == rest;
    assert rest[|rest| - |Ending(status)|..] == Ending(status);
    assert rest[..|rest| - |Ending(status)|] == name;
    if status != "approved" { EndsWithOneEnding(rest, status, "approved"); }
    if status != "reviewing" { EndsWithOneEnding(rest, status, "reviewing"); }
  }

  /**
   A message `parse_status` produces for a record with a str name reads back
   as that record's name and status.
   */
  lemma {:induction false} ParseStatusMessageIdentifiesRecord(homework: Json, msg: string)
    requires ParseStatus(homework) == Ok(msg)
    requires homework.fields["homework_name"].JStr?
    ensures ReadStatusMessage(msg) == Some((homework.fields["homework_name"].s, homework.fields["status"].s))
  {
    StatusMessageRoundTrip(homework.fields["homework_name"].s, homework.fields["status"].s);
  }

  /**
   Two records with str names that `parse_status` turns into the same message
   have the same name and the same status.
   */
  lemma {:induction false} ParseStatusMessagesAgree(a: Json, b: Json, msg: string)
    requires ParseStatus(a) == Ok(msg) && ParseStatus(b) == Ok(msg)
    requires a.fields["homework_name"].JStr? && b.fields["homework_name"].JStr?
    ensures a.fields["homework_name"] == b.fields["homework_name"]
    ensures a.fields["status"] == b.fields["status"]
  {
    ParseStatusMessageIdentifiesRecord(a, msg);
    ParseStatusMessageIdentifiesRecord(b, msg);
  }
}
