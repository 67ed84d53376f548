# Homework-status bot: a verified model of its polling core

The bot polls the Practicum homework API every ten minutes for homework statuses
that changed since a time cursor. It takes the newest homework from the answer,
turns its status into a Russian sentence and sends that sentence to a Telegram
chat. This project models the parts of `homework.py` that decide what happens:

- the verdict table;
- `get_api_answer`, as a function of what the HTTP poll came to;
- the response validator `check_response`;
- the status translator `parse_status`;
- one cycle of `main` and the loop over cycles.

Three modules, one per file:

- `PyJson` (`py_json.dfy`) models a decoded JSON value as Python holds it. `JNull` is `None`. The module also models the two builtins the core relies on: the `in` test on a `str` (a substring test) and `str()` of a value inside an f-string.
- `Homework` (`homework.dfy`) models `HOMEWORK_VERDICTS`, `get_api_answer`, `check_response` and `parse_status`. Each Python exception becomes an `Err` carrying a `Failure` that records what was raised. `Kind` gives the exception class: `TypeError`, `KeyError` or `ValueError`. `ReadStatusMessage` reads a status message back into a name and a status. It is the inverse that the message template is proved against.
- `PollLoop` (`poll_loop.dfy`) models the body of `main`. `Cycle` is the `try`/`except Exception` block as a total function. `Messages` is the specification of a run. `Run` is the loop as a method over a finite sequence of polls. Each poll is the API's answer plus the clock reading at the end of that cycle.

Where the code departs from a plain reading of the bot's design, the model follows the code:

- No deduplication. `send_message` keeps no record of the last text sent. Polling the same answer twice sends the same message twice (`PollLoop.RepeatedAnswerResent`).
- The cursor moves to the clock reading after every cycle, whatever the cycle came to.
- Failures are only logged. No error notification is sent to the chat.
- A non-200 answer reaches `raise None`, and Python raises a `TypeError` for that. `main` catches it like every other failure.
- Validation failures are Python's own `TypeError` and `KeyError`. They are not one "shape error".
- `parse_status` on a value that is not a dict follows Python's `in` operator:
  - on a `str` it is a substring test; on a list it is an element test;
  - an `int`, a `bool` or `None` raises a `TypeError`;
  - when the `in` test passes on a `str` or a list, subscripting it with a `str` key raises a `TypeError`.
- A status that is a list or a dict cannot be hashed. Looking it up in the verdict table raises a `TypeError`, not a `ValueError`.
- `check_response` can return a first element that is `None` (a JSON `null`). `main` then does nothing, exactly as for an empty list. A body that decodes to `null` is skipped in the same way.

## Model

| member | source | states |
|---|---|---|
| `PyJson.HasSubstringOccurs` | homework.py:86 | Python's `in` on two `str` values holds exactly when the key occurs at some position of the string |
| `PyJson.Str` | homework.py:95 | a `str` name is printed into the message as itself, an `int` name as its decimal form |
| `PyJson.NatToDecimalValue` | homework.py:95 | the digits written for a natural number read back as that number |
| `PyJson.IntToDecimalValue` | homework.py:95 | the text written for an `int` name, minus sign included, reads back as that integer |
| `Homework.Kind` | homework.py:72-93 | only a missing key is a `KeyError` and only an unknown status is a `ValueError`; every other failure is a `TypeError` |
| `Homework.GetApiAnswer` | homework.py:52-66 | fails exactly on a non-200 answer, with a `TypeError`; a transport failure gives `None`; a 200 answer gives its decoded body |
| `Homework.CheckResponse` | homework.py:69-81 | a non-dict is a `TypeError` before any key is read; a dict without `homeworks` is a `KeyError`; success exactly when `homeworks` holds a list; no record exactly when that list is empty, otherwise its first element |
| `Homework.CheckResponseIgnoresOtherKeys` | homework.py:73-77 | adding, changing or removing any key other than `homeworks` leaves the outcome unchanged |
| `Homework.CheckResponseReadsOnlyNewest` | homework.py:78-81 | two lists with the same first element give the same record, whatever follows it |
| `Homework.StatusMessage` | homework.py:95 | the message is the fixed opening, the name at a fixed position and the verdict at the end |
| `Homework.ParseStatus` | homework.py:84-95 | a missing `homework_name` is reported before a missing `status`; success exactly for a dict holding both keys with a status from the verdict table, giving the template filled with the name and that status's verdict; `ValueError` exactly when both keys are present and the status is hashable but unknown; never succeeds on a non-dict |
| `Homework.ParseStatusIgnoresOtherKeys` | homework.py:86-94 | keys other than `homework_name` and `status` never change the outcome |
| `Homework.ParseStatusNameCheckedFirst` | homework.py:86-90 | a record without `homework_name` reports that key as missing, whether or not it holds a `status` |
| `Homework.ParseStatusOnStr` | homework.py:86-87 | a `str` passed as the record fails with a `KeyError` unless it contains `homework_name`, and with a `TypeError` when it does |
| `Homework.ReadStatusMessage` | homework.py:94-95 | whatever it reads back, the message is exactly the template built from that name and that status's verdict |
| `Homework.EndingsDiffer` | homework.py:29-33 | the endings of the three verdict sentences differ, so the verdict at the end of a message identifies its status |
| `Homework.StatusMessageRoundTrip` | homework.py:94-95 | every message built from any name and a known status reads back as that name and that status |
| `Homework.ParseStatusMessageIdentifiesRecord` | homework.py:84-95 | a message produced for a record with a `str` name reads back as that record's name and status |
| `Homework.ParseStatusMessagesAgree` | homework.py:84-95 | two records with `str` names that produce the same message have the same name and the same status |
| `PollLoop.Newest` | homework.py:78-81 | the homework a cycle translates is the first element of the list; it is `None` exactly when the list is empty or starts with `null` |
| `PollLoop.Cycle` | homework.py:106-115 | a message is sent exactly when the answer is a 200, the response is well shaped and its newest homework translates, and the message is that translation; the cycle is quiet exactly on a transport failure, a `null` body or no homework; every failure of a stage ends the cycle as caught, carrying that stage's failure |
| `PollLoop.Outbox` | homework.py:112-113 | a cycle that sends hands exactly its message to the chat; any other cycle hands nothing |
| `PollLoop.MessagesAtMostOnePerCycle` | homework.py:105-117 | a run of n cycles sends at most n messages |
| `PollLoop.SilentRun` | homework.py:107-115 | a run in which no cycle delivers sends nothing: transport failures, empty lists and failed validation or translation are all silent |
| `PollLoop.EveryDeliveringPollSends` | homework.py:43-49 | when every cycle delivers, the run sends one message per cycle, in order, each that cycle's message |
| `PollLoop.RepeatedAnswerResent` | homework.py:43-49 | the same answer polled n times sends the same text n times: no deduplication |
| `PollLoop.CycleDeliversNewestStatus` | homework.py:107-113 | a 200 answer whose newest homework has a `str` name and a known status sends the template for that name and verdict, and the message reads back as that name and status |
| `PollLoop.EndToEndCycles` | homework.py:105-117 | an approved homework `hw1` sends the approved verdict for `hw1`; an empty list sends nothing; an HTTP 503 answer is caught as the `TypeError` of `raise None` |
| `PollLoop.Run` | homework.py:98-117 | the first poll asks from the start time minus 600 seconds; each later poll asks from the clock reading at the end of the previous cycle, whatever that cycle came to; the messages sent are exactly those of the cycles, in order, at most one per cycle |

## Left out

- The HTTP request in `get_api_answer` is not modelled: the endpoint, the `OAuth` header and the `from_date` parameter. A poll is an abstract `Fetch`: a transport failure, or a status code with the decoded body. The model records the cursor each poll was sent with.
- A 200 body that is not valid JSON is folded into the transport failure. Recent versions of `requests` raise a `RequestException` subclass for it. With an older `requests` the error escapes `get_api_answer` and `main` catches it instead. Either way nothing is sent.
- Telegram delivery (`send_message`) and the construction of the bot are not modelled. A sent message is appended to the `sent` output. Whether delivery succeeded is not modelled. A `TelegramError` is caught inside `send_message`, and any other error is caught by `main`. Neither changes what the loop does next.
- `check_tokens` and the environment variables it reads are not modelled. This is process configuration. Note that it calls `sys.exit()` without an argument, which exits with status 0.
- Logging is not modelled. It has no effect on behaviour.
- The clock and the sleep are not modelled. `int(time.time())` is an integer input: the `now` of each poll and the `start` of the run. `time.sleep(RETRY_PERIOD)` only spaces the polls.
- The endless `while True` loop is modelled as a run over a finite sequence of polls.
- JSON numbers with a fraction or an exponent (Python floats) are not modelled.
- PyJson.Str: a `homework_name` that is a JSON array or object is printed as a fixed marker (`[...]` or `{...}`), not as Python's repr of it.
- `if message is not None` in `main` is not modelled as a separate branch, because `parse_status` never returns `None`.
