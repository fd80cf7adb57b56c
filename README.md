# turnos-natividad: a Dafny model of the slot monitor

The utility watches the sick-visit appointments page of the Natividad parish
and sends a WhatsApp alert to every registered phone number when slots open.
This project models its three pieces of logic, all in `app.py`, and proves
what they guarantee:

- **Availability probe** (`availability.dfy`, module `Availability`):
  `hay_turnos_disponibles` lower-cases the page text. The sentence "en este
  momento la parroquia no cuenta con cupos para enfermos" means no slots,
  whatever else the page says. Otherwise either age-bracket heading ("turnos
  enfermos menores de 17 años", "turnos enfermos mayores de 18 años") means
  slots are open. A failure anywhere in fetching or parsing means no slots.
  Python's `sub in s` is `Contains`: some index at which `sub` occurs.
- **Registration** (`registry.dfy`, module `Registry`): `register` rejects a
  missing or empty number with HTTP 400. Otherwise it appends the number to
  the stored list only when the number is absent, and answers 200. The JSON
  file is the field `usuarios` of class `UserStore`. The pure function
  `Registration` is what the `UserStore.Register` method is proved against.
- **Monitor loop** (`monitor.dfy`, module `Monitor`): `iniciar_monitor`
  keeps one flag, `ya_aviso`. On a tick whose probe finds slots while the
  flag is down, it loads the numbers, tries one send per number in list
  order (a failed send is caught and the loop goes on), and raises the flag.
  A tick without slots lowers the flag. Class `MonitorThread` holds the flag and a
  log of send attempts. `Tick` is one iteration of the `while True` loop and
  `Dispatch` the inner `for` loop. `Run` drives a fresh monitor over a finite
  sequence of polls. Its result is tied to `Windows`, the number of
  availability windows, and to `ExpectedLog`, the attempts those windows call
  for.

## Model

| member | source | states |
|---|---|---|
| Availability.LowerChar | app.py:53 | The result is never a capital letter; a character is changed only if it is an ASCII or Latin-1 capital, and then to the code point 32 above it |
| Availability.Lower | app.py:53 | `.lower()` turns every capital into its small letter (the code point 32 above), leaves no capital letter, changes nothing else, and gives text without capitals back unchanged |
| Availability.Contains | app.py:54-58 | Python's `sub in s`: `sub` occurs at some index of `s`, so it is never longer than `s` |
| Availability.ContainsEmptyAndSelf | app.py:54-58 | As Python's `in`, the empty string is in every string and every string is in itself |
| Availability.SlotsOpen | app.py:54-59 | On lower-cased text: true only if the "no slots" sentence is absent and a heading is present; true whenever the sentence is absent and a heading is present |
| Availability.Probe | app.py:48-62 | A fetch or parse failure is never reported as slots; slots are reported only for fetched text whose lower-cased form lacks the "no slots" sentence and holds a heading |
| Availability.ContainsSplit | app.py:54 | Python's `in` finds a phrase wherever it sits between two pieces of text |
| Availability.SplitAtOccurrence | app.py:54 | Conversely, every occurrence splits the text into a prefix, the phrase and a suffix |
| Availability.LowerConcat | app.py:53 | Lower-casing distributes over concatenation |
| Availability.LowerKeepsOccurrence | app.py:53-54 | Lower-casing never loses an occurrence: a phrase in the page gives its lower-cased form in the lower-cased page |
| Availability.NoSlotsPhraseIsLowerCase | app.py:54 | The "no slots" sentence is unchanged by `.lower()` |
| Availability.MinorsPhraseIsLowerCase | app.py:57 | The minors' heading is unchanged by `.lower()` |
| Availability.AdultsPhraseIsLowerCase | app.py:58 | The adults' heading is unchanged by `.lower()` |
| Availability.NoSlotsSentenceWins | app.py:53-55 | The "no slots" sentence in any capitalisation, with anything before or after it, makes the probe report no slots |
| Availability.ExactNoSlotsSentence | app.py:54-55 | The same for the sentence spelled as app.py spells it (all lower case) |
| Availability.AgeHeadingAnnounces | app.py:53-59 | Either heading in any capitalisation makes the probe report slots unless the lower-cased page holds the "no slots" sentence |
| Availability.ExactHeadingAnnounces | app.py:56-59 | The same for either heading spelled as app.py spells it (all lower case) |
| Availability.NoHeadingNoSlots | app.py:56-59 | A page whose lower-cased text holds neither heading is reported as no slots |
| Availability.CapitalisedHeadingExample | app.py:53-59 | A page reading "TURNOS ENFERMOS MENORES DE 17 AÑOS" is reported as slots |
| Registry.AppendIfAbsent | app.py:42-43 | The old list stays as a prefix, the number is in the result, nothing else is added, and the length grows by one exactly when the number was absent |
| Registry.Registration | app.py:37-46 | A missing or empty number gets the 400 reply and leaves the list unchanged; any other number gets the 200 reply with that number, keeps the old list as a prefix and is stored afterwards |
| Registry.RegisterPresentIsNoOp | app.py:41-46 | A non-empty number already stored leaves the list unchanged and is still answered 200 |
| Registry.RegisterIdempotent | app.py:37-46 | Registering the same value twice gives the same list and reply as registering it once |
| Registry.AppendIfAbsentKeepsDistinct | app.py:42-43 | A list without repeated numbers keeps that property |
| Registry.RegisterAllSound | app.py:37-44 | Any sequence of calls to the endpoint keeps the list free of repeats, keeps the stored entries in place and in order, and stores exactly the old numbers plus the non-empty posted ones; blank values add nothing |
| Registry.TwiceFromEmpty | app.py:37-44 | Posting one value twice on an empty store leaves one entry, or none when the value is missing or empty |
| Registry.UserStore.constructor | app.py:24-28 | The store holds the list the file holds (the empty list when there is no file) |
| Registry.UserStore.Register | app.py:34-46 | The new stored list and the reply are those of `Registration` on the old list, and a repeat-free list stays repeat-free |
| Monitor.Attempts | app.py:71-80 | One dispatch pass makes one attempt per loaded number, in list order; an attempt is accepted exactly when the gateway does not reject the send at that position, and a rejected send does not remove later attempts |
| Monitor.MonitorThread.constructor | app.py:66 | The monitor starts with `ya_aviso` down and nothing sent |
| Monitor.MonitorThread.Dispatch | app.py:70-80 | The inner loop appends exactly the attempts of one pass over the loaded list to the log |
| Monitor.MonitorThread.Tick | app.py:68-83 | A pass happens exactly when the probe finds slots and the flag was down; afterwards the flag equals the probe's answer, so a tick with slots leaves it up (failed sends included) and a tick without slots lowers it; nothing is sent otherwise |
| Monitor.Run | app.py:64-84 | From the start, the number of passes is the number of availability windows, the attempts are exactly those of one pass per window, and the flag ends equal to the last signal |
| Monitor.WindowsCountsOpeningTicks | app.py:66-83 | The number of windows is the number of ticks that find slots and are the first tick or follow a tick without slots |
| Monitor.OnePassPerWindow | app.py:68-83 | Between any two passes there is a tick without slots: at most one alert per availability window |
| Monitor.WindowsAtMostTrueTicks | app.py:68-81 | There are never more passes than ticks that find slots |
| Monitor.WindowsAtMostHalf | app.py:68-83 | Twice the number of passes is at most the number of ticks, plus one if the run ends with slots |
| Monitor.SteadyAvailabilityDispatchesOnce | app.py:68-81 | A run that finds slots on every tick makes exactly one pass |
| Monitor.NoSlotsNoDispatch | app.py:82-83 | A run that never finds slots makes no pass |
| Monitor.SixTickExample | app.py:66-83 | The run no, yes, yes, yes, no, yes makes two passes, not four |
| Monitor.TransientFailureAlertsAgain | app.py:60-83 | A failed fetch between two probes that find slots re-arms the flag, so the alert goes out twice |
| Monitor.ExactlyOneAttemptEach | app.py:70-80 | For a list without repeats, every number gets exactly one attempt in a pass |
| Monitor.PartialFailureExample | app.py:72-80 | With numbers A, B, C and B failing, A and C are still sent to once each, in order |
| Monitor.RepeatedNumberExample | app.py:71-80 | A number listed twice gets two attempts, and each has its own outcome |

## Left out

- The Flask app, routing, request parsing and JSON replies (app.py:1, 14, 34-36, 46): `register` takes the value of the "numero" key as an `Option<string>` and returns a `Reply`.
- Registry.Registration: Python's `not numero` also rejects other falsy JSON values (`0`, `false`, `[]`), and a non-string truthy value would be stored; only absent and string values are modelled.
- The page fetch with `requests.get` and the text extraction with BeautifulSoup (app.py:50-53): foreign calls; the model takes their result as a `Fetch`, either the extracted text or a failure. An HTTP error status does not raise (nothing calls `raise_for_status`), so an error page is `Fetched` text, not a failure.
- Availability.Lower: models `str.lower()` only for ASCII and Latin-1 capitals; Python also lower-cases letters beyond Latin-1, which the model keeps unchanged, and for some of them the result is longer (`'İ'.lower()` is two characters), whereas the model always keeps the length. The phrases themselves use only characters it covers.
- The Twilio client and `client.messages.create` (app.py:65, 73-77): an external messaging API; each send is an attempt whose acceptance by the gateway (not its later delivery) is decided by the poll's `failing` set of list positions.
- The printed lines (app.py:61, 78, 80): app.py prints one line per send attempt and keeps no delivery history; the `sent` log records every attempt with its outcome.
- The JSON file I/O of `cargar_usuarios` and `guardar_usuarios` (app.py:24-32): the stored list is the `usuarios` field of `UserStore`, and each poll carries the list that would be loaded on that tick.
- Time-outs (app.py:51, 65, 73-77): no timeout is set on the page fetch or on the sends, so a stalled call blocks the monitor thread forever; in the model every poll's fetch and sends return, so `Run` completes every tick.
- The daemon thread, the endless `while True` loop and `time.sleep(300)` (app.py:67, 84, 86): concurrency and timing; `Run` covers any finite number of iterations.
- Races between a registration and the monitor's loading of the list: the threads share the file without locking; the model takes each poll's list as given.
- The monitor's one fatal exit (app.py:27, 31, 70): `cargar_usuarios()` on a dispatching tick runs outside any `try`, and `json.load` raises on an empty or half-written file, which is what the monitor reads while a concurrent `/register` is rewriting it with `open(..., "w")`. The exception ends the daemon thread and no later tick runs. In the model every poll carries a list that loads, so `Run` always completes every tick.
- Concurrent registrations (app.py:41-44): two `/register` calls that overlap each load, append and rewrite the file, so one of the two numbers can be lost. `RegisterAllSound` holds only for calls that run one after another.
- The `/test` endpoint (app.py:92-104): a single send to a fixed number, with no logic to model.
- Environment and configuration loading and the server start-up (app.py:12, 17-20, 88-90).
