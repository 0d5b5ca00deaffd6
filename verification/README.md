# A model of the gala-gopher probe framework

Gala-gopher probes print `|table|v1|...|` lines. The lines pass through lock-free rings into a keyed in-memory database
that is scraped as Prometheus text. Around it sit eBPF probes, small event-driven state machines over maps. This project
models these parts in Dafny and proves what they keep over whole runs.

| file | component |
|---|---|
| Words, Options | 32- and 64-bit wrap-around, bit masks, optional values |
| Fifo, Pipeline | the ring, and the producer and consumer threads around it with the eventfd, as interleaved steps |
| Numbers, Printf, Layout, Directives | the hand-written printf of the built-in probes, how its fields look, what its directives mean |
| Text, Records, Tables | the line parser, fixed-width keys, the bounded upsert table |
| Ingress, RoundTrip | routing of lines to tables, the extend probe's line assembly, and the path from printf to row |
| Exporter, Scrape, Pages | the bounded exporter that deletes what it emits, its loops over a real buffer, whole pages |
| Lifecycle, PromText, Journey | a row from its configuration to its expiry, reading a page back, the whole way from a probe to a reader |
| Resp, RespDecode, Ksli, KsliLog | the Redis request recogniser, the client's printer, the sampling cycle of a connection, told from its events |
| RedisSli, RedisLog | the Redis latency probe with the entry/return parameter stash, told from its events |
| BlockStats | the four latency statistics sharing a window |
| Meter, Endpoint, EndpointLog, TcpProbe, TcpLog | keyed counters and gauges that are reported and cleared once per period, in two probes, told from their events |
| SsParser, Listeners, ListenPorts | the `ss` readers, the listen-port index, connection roles, the endpoint table |

Code that changes state in place is a class or a loop over an array, proved against a function of its old state; the
properties are lemmas over those functions and over runs of them.

What the code does, where that differs from what one would expect of it:

- A scrape that fails has already deleted the rows it had printed, those of earlier tables too, and then no page is
  sent. A row whose last lines did not fit is deleted with them unprinted. A page is complete only if everything in it
  fits (`PageLosslessIff`, `FailureSplits`). A live row with nothing to print fails every scrape of its table
  until it expires (`TableStaysBlocked`).
- A line whose first value is empty shifts: the parser drops all leading empty values (`FullLineComesBack`). A short line
  gains a `(null)` over the route that strips the newline (`RoutesAgreeIff`).
- The ksli command buffer is cleared only by a harvest. Any request parsed since then, accepted or not, may have left
  letters that show through a shorter command (`WrittenIff`, `BufferIsClean`, `CommandRecordedIff`). A command is
  recognised only if its header is shorter than 29 characters (`RecognisesPacked`).
- A ksli cycle that is acknowledged before its start is given up but keeps that start, so the next cycle may be measured
  from a read of the one before (`CycleEndsOtherwise`, `StartIsOrigin`).
- An extend probe's line grows in an allocation of 2048 bytes, and no write is checked against its end. The writes stay
  inside only while no bar-led `fgets` buffer follows a bar-led one without a newline (`InsideIff`); so a line of 2047
  characters or more never comes out whole, and part of one may come out as a line (`EmitsComplete`,
  `LinesComeOutIff`).
- The TCP probe never deletes a link, although it has code to do so (`DeleteTcpLink`). Its minimum gauges take
  zero for "unset" (`LoweredIsMinimum`), its delivery rate is not divided by the interval (`DeliveryRate`), and it never
  adds the running interval of a busy time. It swaps the bytes of a client's own port, which is in host order already
  (`LinkOf`); links stay distinct all the same (`SharedIff`).
- A process named like `(sd-pam)` is dropped by the `ss` reader (`ReadableIff`, `SdPamIsLost`). A listening socket shared
  by several processes is not recorded (`SharedListenerIsLost`), so connections behind it count as clients
  (`RoleOfConnection`).

## Model

The results come first, component by component; the operations they are about follow, each proved against the function
of the old state that the results speak of.

| member | source | states |
|---|---|---|
| Words.MaskIsRemainderIff | gala-gopher/src/lib/fifo/fifo.c:31-40 | masking an index with `size - 1` is reduction modulo `size` exactly for the sizes the constructor lets through |
| Words.WrappedSlot | gala-gopher/src/lib/fifo/fifo.c:82-118 | wrapping the free-running index at 2^32 never changes the slot it selects, for every power-of-two size |
| Words.WrappedDifference | gala-gopher/src/lib/fifo/fifo.c:82-118 | the difference of two wrapped indices is the true number of elements as long as that fits a word |
| Fifo.ReserveIsExact | gala-gopher/src/lib/fifo/fifo.c:82-118 | the two `FifoMin` computations on wrapped indices tell exactly whether there is a free slot and whether there is an element |
| Fifo.StoreHolds | gala-gopher/src/lib/fifo/fifo.c:82-99 | writing the next slot keeps every element in the window and adds the new one behind them |
| Fifo.SlotsDistinct | gala-gopher/src/lib/fifo/fifo.c:82-118 | two positions less than a ring apart never use one slot |
| Fifo.PutAppends | gala-gopher/src/lib/fifo/fifo.c:82-99 | a put of a valid ring appends to the queue, or changes nothing exactly when the ring is full |
| Fifo.GetRemoves | gala-gopher/src/lib/fifo/fifo.c:101-118 | a get removes and delivers the oldest element, or changes nothing exactly when the ring is empty |
| Pipeline.InitialInv | gala-gopher/src/lib/fifo/fifo.c:31-61 | the invariant of the two-thread system holds at the start |
| Pipeline.StepKeepsInv | gala-gopher/src/lib/fifo/fifo.c:82-118 | every single step of either thread, between any two barriers, keeps the invariant |
| Pipeline.ReachableInv | gala-gopher/src/ingress/ingress.c:149-205 | the invariant holds in every state any interleaving reaches |
| Pipeline.FifoOrder | gala-gopher/src/lib/fifo/fifo.c:82-118 | under every interleaving the values got are a prefix of those put, in order, nothing lost or doubled, and the ring holds exactly the rest with `(in - out) mod 2^32 <= size` |
| Pipeline.PutLandsIff | gala-gopher/src/lib/fifo/fifo.c:82-99 | whatever the consumer does between the steps of a put, the element is sent, and its trigger due, exactly if the ring had a free slot when the put began; otherwise nothing of it remains |
| Pipeline.ProducerNeverStuck | gala-gopher/src/lib/probe/probe.c:482-494 | a put that has begun can always go on |
| Pipeline.ConsumerNeverStuck | gala-gopher/src/ingress/ingress.c:149-205 | the consumer can always go on unless it waits for an eventfd at zero |
| Pipeline.TriggersAreCounted | gala-gopher/src/lib/probe/probe.c:482-494 | under every interleaving each put is stored and published once and each sent element triggered once; the eventfd counts the triggers since it was last read and is read at most once per trigger, so the consumer never wakes without cause |
| Pipeline.NoSlotRace | gala-gopher/src/lib/fifo/fifo.c:82-118 | whenever the producer is about to write a slot and the consumer about to read one, they are different slots |
| Pipeline.NoLostWakeup | gala-gopher/src/ingress/ingress.c:149-234 | a sleeping consumer of a non-empty ring has a positive eventfd unless the producer is about to write it; the eventfd read after a wakeup never blocks |
| Pipeline.StepProgress | gala-gopher/src/ingress/ingress.c:149-205 | from a non-empty ring, every consumer step takes an element or brings the next take strictly closer, and no producer step undoes that |
| Pipeline.ComesCloser | gala-gopher/src/lib/probe/probe.c:482-494 | in a fair run every state with a non-empty ring is followed by progress of the consumer |
| Pipeline.EventuallyDrained | gala-gopher/src/egress/egress.c:76-100 | in every fair infinite run every published element is eventually handed to the consumer, at its place in the order |
| Numbers.FieldLength | gala-gopher/src/lib/probe/probe.c:189-278 | a number takes exactly max(width, sign + prefix + max(precision, digits)) characters, for every 64-bit value, base 2..16, width, precision and flag set |
| Numbers.PositionalBound | gala-gopher/src/lib/probe/probe.c:189-278 | a value below 2^k has at most k digits in any base |
| Numbers.FieldReadsBack | gala-gopher/src/lib/probe/probe.c:189-278 | reading the printed field with `strtoll` gives back the printed value, whatever flags, width and precision |
| Layout.FieldLayout | gala-gopher/src/lib/probe/probe.c:189-278 | how every printed number looks: blanks behind it only if left-justified, in front of it only if neither left-justified nor zero-padded, then the sign (a plus before a blank, none for unsigned conversions) and the prefix, then nothing but zeros up to the numeral |
| Layout.NumeralIsShortest | gala-gopher/src/lib/probe/probe.c:189-278 | a numeral other than 0 does not begin with a zero |
| Layout.DigitCase | gala-gopher/src/lib/probe/probe.c:189-278 | letters among the digits are small or capital as the flag asks |
| Layout.JustifyLayout | gala-gopher/src/lib/probe/probe.c:303-479 | a text is padded with blanks on the side the justification asks for |
| Directives.IntegerDirective | gala-gopher/src/lib/probe/probe.c:303-479 | for every way to write flags, width, precision and qualifier, scanning recovers them, the argument is cut to the type of the qualifier and laid out accordingly, and exactly this part of format and arguments is consumed |
| Directives.TextDirective | gala-gopher/src/lib/probe/probe.c:303-479 | the same for texts, cut to their precision and justified in their width |
| Directives.CharDirective | gala-gopher/src/lib/probe/probe.c:303-479 | the same for characters: the low byte of the argument |
| Directives.PercentDirective | gala-gopher/src/lib/probe/probe.c:303-479 | two percent signs print one, whatever stands between them, and take no argument of their own |
| Directives.UnknownDirective | gala-gopher/src/lib/probe/probe.c:303-479 | a letter that is no conversion is copied behind a percent sign |
| Directives.BrokenDirective | gala-gopher/src/lib/probe/probe.c:303-479 | a format that ends inside a directive prints a percent sign |
| Directives.TextIsCopied | gala-gopher/src/lib/probe/probe.c:303-479 | text without percent signs is copied |
| Directives.DirectiveIsReplaced | gala-gopher/src/lib/probe/probe.c:303-479 | a directive is replaced by its text and the rest goes on with the arguments left |
| Text.SplitFields | gala-gopher/src/lib/imdb/imdb.c:349-423 | splitting at the separator undoes joining with it |
| Records.CollectsAll | gala-gopher/src/lib/imdb/imdb.c:349-423 | the loop with its `index` counter collects: the tokens before a newline token, without the leading empty ones, empty later ones as "(null)", at most one per field |
| Records.KeyInjective | gala-gopher/src/lib/imdb/imdb.c:130-143 | two key tuples get the same fixed-width key exactly if every slot holds the same text up to its 511 characters |
| Records.ShortKeysInjective | gala-gopher/src/lib/imdb/imdb.c:130-143 | the key encoding is injective on tuples of values shorter than a slot, complete or cut short |
| Tables.MapLookup | gala-gopher/src/lib/imdb/imdb.c:1350-1391 | a list without equal keys is a finite map with as many entries |
| Tables.UpsertRefinesMap | gala-gopher/src/lib/imdb/imdb.c:201-219 | the upsert refines a bounded finite map: an existing key never fails, failure changes nothing, success changes that key only, keys stay distinct and the count within capability |
| Tables.PositionAfterRemoval | gala-gopher/src/lib/imdb/imdb.c:1363-1370 | removing a key moves every other one forward by at most one place |
| Tables.UpsertMovesForward | gala-gopher/src/lib/imdb/imdb.c:201-219 | an upsert of another key never moves a row backwards |
| Lifecycle.RowOfFields | gala-gopher/src/resource/resource.c:342-378 | the stored row has one metric per value, with the name, description and type of its configured field, the value cut to what fits, and the time of the upsert |
| Lifecycle.KeySlots | gala-gopher/src/lib/imdb/imdb.c:130-143 | its key holds the value of each key field in the slot of its rank among the key fields, ended by a NUL |
| Lifecycle.UpsertGoesLast | gala-gopher/src/lib/imdb/imdb.c:201-219 | an upserted row goes last, behind all rows of other keys in their order |
| Exporter.FitsWhole | gala-gopher/src/lib/imdb/imdb.c:852-884 | all lines fit a buffer exactly if together they leave a byte free |
| Exporter.NoText | gala-gopher/src/lib/imdb/imdb.c:852-884 | a row yields no bytes exactly if its labels overflow, it has nothing exportable, or its first line does not fit |
| Exporter.ScrapeSplits | gala-gopher/src/lib/imdb/imdb.c:888-944 | a successful scrape splits the rows into a processed prefix, every live row of which contributes whole lines and at least one, at most 100 rows, and an untouched suffix that is non-empty only after exactly 100 |
| Exporter.TextLeavesRoom | gala-gopher/src/lib/imdb/imdb.c:888-944 | at least one byte of the buffer stays free |
| Exporter.LosslessIff | gala-gopher/src/lib/imdb/imdb.c:888-944 | the part of a table before its blank line loses no line of the live rows, at most 100, exactly if each of them can be printed (labels fit, something to export) and all their lines together leave a byte free; otherwise the scrape fails or drops lines of rows it deletes |
| Exporter.FailureSplits | gala-gopher/src/lib/imdb/imdb.c:917-931 | a scrape fails exactly if some live row, reached within the 100 by rows that all go through, yields no text in the room they leave; then everything before that row is deleted, it and the rest stay |
| Exporter.BlockedHead | gala-gopher/src/lib/imdb/imdb.c:917-931 | a live first row fails the whole scrape and stays exactly if it has no text |
| Lifecycle.LiveIsRecent | gala-gopher/src/lib/imdb/imdb.c:905-912 | the rows a scrape works on are, in order, those whose last upsert plus the timeout is not before the clock |
| Lifecycle.StoredThenScraped | gala-gopher/src/lib/imdb/imdb.c:888-944 | a row upserted at `t` and reached with room by a scrape at `now` is printed, all its lines, exactly if `now <= t + timeout`, and otherwise deleted with no line of it in the text |
| PromText.SampleReadsBackIff | gala-gopher/src/lib/imdb/imdb.c:724-748 | a sample line is read back as its metric name, labels, value and time in milliseconds exactly if there is no brace in the name and no space in the value |
| PromText.RowReadsBackIff | gala-gopher/src/lib/imdb/imdb.c:852-884 | the lines of a row are read back as its counters, gauges, histograms and summaries in order, exactly if that holds of each of them |
| PromText.LabelsReadBackIff | gala-gopher/src/lib/imdb/imdb.c:751-795 | the label text is read back as the label and key metrics of the row with machine and host behind them, exactly if no name holds an equals sign, no value a quote, and the first name does not begin with a comma |
| Pages.TablePage | gala-gopher/src/lib/imdb/imdb.c:934-944 | a scraped table is its complete sample lines and one blank line, an empty one nothing |
| Pages.PageIsWholeLines | gala-gopher/src/lib/imdb/imdb.c:946-970 | a successful page is a concatenation of complete metric lines of the stored rows and one blank line per non-empty table, never a cut line, with a byte left free |
| Pages.ExportMovesForward | gala-gopher/src/lib/imdb/imdb.c:888-944 | a successful scrape removes a row or moves it at least 100 places forward |
| Pages.PageLosslessIff | gala-gopher/src/lib/imdb/imdb.c:946-970 | for tables with at most 100 live rows each, the page succeeds and holds every line of every live row exactly if every live row can be printed and all lines and blank lines of all tables together leave a byte free |
| Pages.PositionAfter | gala-gopher/src/lib/imdb/imdb.c:888-944 | over any run of upserts and scrapes, failed ones included, a row that is not upserted again is gone or at least 100 places further forward per successful scrape, and a key that is missing stays missing |
| Pages.RowLeavesInTime | gala-gopher/src/lib/imdb/imdb.c:888-944 | over any run of upserts and scrapes, a row at position n that is not upserted again is gone once n/100 + 1 scrapes have succeeded, however many fail in between |
| Pages.TableStaysBlocked | gala-gopher/src/lib/imdb/imdb.c:888-944 | a first row that is neither expired nor printable blocks its table over any run in which nobody upserts it: every scrape fails, and the rows are those the other upserts alone would give |
| Ingress.LineIsUnique | gala-gopher/src/ingress/ingress.c:122-147 | a line has one name and one content |
| RoundTrip.LinePrints | gala-gopher/src/lib/probe/probe.c:303-479 | the printf engine turns a line format and its arguments into the line of their texts |
| RoundTrip.IntegerField | gala-gopher/src/lib/probe/probe.c:189-278 | a printed integer field is free of separators and reads back as the C value of the argument |
| RoundTrip.InRangeIsExact | gala-gopher/src/lib/probe/probe.c:303-479 | an argument within the range of its conversion prints as itself |
| RoundTrip.BuiltinParsed | gala-gopher/src/lib/imdb/imdb.c:349-423 | what the parser makes of any printed line: the values from the first non-empty one on |
| RoundTrip.ExtendParsed | gala-gopher/src/lib/imdb/imdb.c:349-423 | what it makes of the same line stripped of its newline |
| RoundTrip.FullLineComesBack | gala-gopher/src/lib/imdb/imdb.c:349-423 | a line with a value per field comes back value by value exactly if its first value is not empty |
| RoundTrip.RoutesAgreeIff | gala-gopher/src/lib/probe/extend_probe.c:82-129 | the stripped route gives the same values exactly for lines with no value or at least as many as there are fields; a shorter one gains a "(null)" |
| RoundTrip.InsideIff | gala-gopher/src/lib/probe/extend_probe.c:82-129 | for every stream of `fgets` buffers, all writes stay inside the 2048 bytes of the allocation exactly if no buffer that begins with a bar comes behind one that begins with a bar and has no newline; only a lone bar may, as the last buffer |
| RoundTrip.EmitsComplete | gala-gopher/src/lib/probe/extend_probe.c:82-129 | and then what is handed on is exactly the bar-led lines that arrive in one buffer, whole and in order |
| RoundTrip.LinesComeOutIff | gala-gopher/src/lib/probe/extend_probe.c:82-129 | for every output of whole lines whose writes stay inside, the lines handed on are its bar-led lines, all of them and nothing else, exactly if no line of 2047 or more characters begins with a bar or has a last buffer that does |
| RoundTrip.EndToEnd | gala-gopher/src/ingress/ingress.c:122-147 | from the printf call to the row: routed to the named table, one metric per field with the meta names and the printed values, exactly if the first is not empty |
| Journey.PrintedValueIsRead | gala-gopher/src/ingress/ingress.c:149-205 | the whole way: a value printed by a probe is routed, stored and scraped while recent, and read off the page as the name of its configured field, the printed text and the time of the scrape |
| RoundTrip.StrippedLineSameRow | gala-gopher/src/lib/probe/extend_probe.c:82-129 | the newline-stripped line gives the same row |
| Resp.AcceptsIff | gala-gopher/src/probes/extends/ebpf.probe/src/ksliprobe/ksliprobe.bpf.c:172-237 | acceptance is membership in a regular language, and the accepted command in upper case is written over the front of the buffer |
| Resp.RecognisesPacked | gala-gopher/src/probes/extends/ebpf.probe/src/ksliprobe/ksliprobe.bpf.c:223-258 | the recogniser undoes the printer: a packed alphabetic command is recognised exactly if its header is shorter than 29, and from a zeroed buffer the command read is its upper case |
| Resp.CommandReadIff | gala-gopher/src/probes/extends/ebpf.probe/src/ksliprobe/ksliprobe.bpf.c:172-258 | the command read from a recognised request is its upper case and nothing else exactly if the buffer was zero behind it |
| Resp.WrittenIff | gala-gopher/src/probes/extends/ebpf.probe/src/ksliprobe/ksliprobe.bpf.c:172-237 | a request leaves letters in the buffer exactly if letters follow a complete header, and then those, whether it is accepted, rejected for a later character, or longer than the scan |
| RespDecode.LettersAre | gala-gopher/src/probes/extends/ebpf.probe/src/ksliprobe/ksliprobe.bpf.c:172-221 | letters are A to Z and a to z, recorded as capitals, and digits 0 to 9 |
| RespDecode.RequestDecodes | gala-gopher/src/probes/extends/python.probe/redis_client.probe/client-async.py:95-112 | decoding a packed request by its counts and lengths gives back its strings, whatever they hold |
| RespDecode.ClientRequestDecodes | gala-gopher/src/probes/extends/python.probe/redis_client.probe/client-async.py:95-112 | and those of a list of values stand for the values: texts for themselves, integers by numbers that read back |
| Ksli.SampleAccounting | gala-gopher/src/probes/extends/ebpf.probe/src/ksliprobe/ksliprobe.bpf.c:288-357 | over every run the measured round trips are exactly the folded ones, in order, plus one if the status is finished: each is harvested exactly once |
| Ksli.CyclePassesPhases | gala-gopher/src/probes/extends/ebpf.probe/src/ksliprobe/ksliprobe.bpf.c:288-455 | every measured round trip went through a recognised read that found no cycle under way and opened it, a write, a queued segment and the delivery of that very segment, and is the delivery time minus the start time frozen at that read |
| KsliLog.StartIsOrigin | gala-gopher/src/probes/extends/ebpf.probe/src/ksliprobe/ksliprobe.bpf.c:457-474 | in every run the start time is the stamp of the last queued data received on the idle connection since a cycle was last measured or expired; if there is none or it is 0, the clock of the first read that opened a cycle since |
| KsliLog.RttFromArrival | gala-gopher/src/probes/extends/ebpf.probe/src/ksliprobe/ksliprobe.bpf.c:433-474 | under a clock that never runs back a measured round trip is the delivery time minus that stamp, or minus the clock of the read that opened its cycle, and is recorded with that cycle's command |
| KsliLog.CycleCompletes | gala-gopher/src/probes/extends/ebpf.probe/src/ksliprobe/ksliprobe.bpf.c:288-455 | every undisturbed cycle completes: opened by a recognised read, then a write, a queued segment and the first delivery of it, with no read five seconds or more after the start in between, it ends with its round trip measured |
| KsliLog.CycleEndsOtherwise | gala-gopher/src/probes/extends/ebpf.probe/src/ksliprobe/ksliprobe.bpf.c:329-449 | a cycle ends otherwise exactly with a read five seconds or more after its start, or with an acknowledgement before its start |
| KsliLog.ProtocolIff | gala-gopher/src/probes/extends/ebpf.probe/src/ksliprobe/ksliprobe.bpf.c:342-348 | the protocol of the connection is known exactly if a cycle was ever opened |
| KsliLog.ReportsIff | gala-gopher/src/probes/extends/ebpf.probe/src/ksliprobe/ksliprobe.bpf.c:261-327 | a report leaves exactly with a read five seconds or more after the read that closed the window before, if samples were folded since; it carries their number, the first of the largest and of the smallest, and the last, each with its command |
| Ksli.ReportsSpaced | gala-gopher/src/probes/extends/ebpf.probe/src/ksliprobe/ksliprobe.bpf.c:261-285 | successive reports are at least 5 s apart, whatever the clock does |
| Ksli.BufferIsClean | gala-gopher/src/probes/extends/ebpf.probe/src/ksliprobe/ksliprobe.bpf.c:288-357 | in a reachable state the command buffer is all zero exactly if no request parsed since the last harvest left a letter in it |
| Ksli.CommandRecordedIff | gala-gopher/src/probes/extends/ebpf.probe/src/ksliprobe/ksliprobe.bpf.c:288-357 | over any run, the command recorded for a recognised request is its upper case exactly if it follows a harvest or no request parsed since then left more letters than it has |
| Ksli.RejectedCommandShowsThrough | gala-gopher/src/probes/extends/ebpf.probe/src/ksliprobe/ksliprobe.bpf.c:339-342 | after a rejected `SORT_RO`, a `GET` is recorded as `GETT` |
| Ksli.AbandonedCommandShowsThrough | gala-gopher/src/probes/extends/ebpf.probe/src/ksliprobe/ksliprobe.bpf.c:329-349 | a command left behind by an abandoned cycle shows through a shorter next one |
| RedisSli.StashIsOwn | gala-gopher/src/probes/extends/ebpf.probe/src/include/__share_map_match.h:68-111 | if no thread re-enters a traced function, everything stashed belongs to a call under way |
| RedisSli.ReturnSeesOwnEntry | gala-gopher/src/probes/extends/ebpf.probe/src/include/__share_map_match.h:68-111 | every return handler sees its own entry's parameters or none, and leaves none behind |
| RedisSli.SubmittedOnce | gala-gopher/src/probes/extends/ebpf.probe/src/sliprobe/redissli.bpf.c:116-328 | every submitted event has its own sampled command of that client and name; one sample was under way from its entry until it was submitted, a return handler whose own stash entry is that client finished it, and the latency is that handler's clock minus the read time, never negative under a monotone clock; no two events share a sample, and two submitted by writes to one client are more than a period apart unless it was released between |
| RedisLog.LogHolds | gala-gopher/src/probes/extends/ebpf.probe/src/sliprobe/redissli.bpf.c:116-306 | in every reachable state the connection holds the positions last noted, the bytes sent since the last read and the place where the last reply ends, as the events of the client tell them |
| RedisLog.SampleBegins | gala-gopher/src/probes/extends/ebpf.probe/src/sliprobe/redissli.bpf.c:143-178 | a command of an idle client starts a sample with its name and the time of the client's last read outside a sample |
| RedisLog.SamplingIff | gala-gopher/src/probes/extends/ebpf.probe/src/sliprobe/redissli.bpf.c:143-306 | a sample lasts until a write to the client returns more than the period after the last sample of the client ended, or after it connected |
| RedisLog.FinishesIff | gala-gopher/src/probes/extends/ebpf.probe/src/sliprobe/redissli.bpf.c:180-306 | a sampled command becomes finished exactly when a write returns with which the bytes sent reach the end of its reply, or with its own return if it has no reply; its end is the time of that event |
| RedisLog.FinishedWhenSent | gala-gopher/src/probes/extends/ebpf.probe/src/sliprobe/redissli.bpf.c:180-306 | the handler that finished a submitted command was the first such one since its sample began |
| RedisLog.SubmitsIff | gala-gopher/src/probes/extends/ebpf.probe/src/sliprobe/redissli.bpf.c:286-328 | an event is submitted exactly when a sample closes whose command is finished, or its client is released during one |
| RedisLog.ReturnFindsEntry | gala-gopher/src/probes/extends/ebpf.probe/src/include/__share_map_match.h:68-111 | what a thread stashes on entry is there on the first return of the same function in the same thread |
| BlockStats.StatisticsAreFolds | gala-gopher/src/probes/extends/ebpf.probe/src/blockprobe/block.h:98-132 | in every reachable state, across rollovers and clock errors, each of the four statistics is maximum, last, sum, count and largest consecutive difference of its own samples since its window started, as the events tell it, starting from an implicit 0 if it was cleared with the others |
| BlockStats.Consistent | gala-gopher/src/probes/extends/ebpf.probe/src/blockprobe/block.h:46-72 | in every reachable state last <= max and jitter <= max, and max <= sum <= count * max until the sum or the count wraps |
| Meter.Conserved | gala-gopher/src/probes/extends/ebpf.probe/src/endpointprobe/output.h:115-133 | over any run, reported plus pending equals attributed, modulo the word |
| Meter.ConservedExactly | gala-gopher/src/probes/extends/ebpf.probe/src/endpointprobe/output.h:115-133 | and exactly so while the total fits the word |
| Meter.PendingIsWindow | gala-gopher/src/probes/extends/ebpf.probe/src/tcpprobe/tcpprobe.bpf.c:241-256 | pending statistics are the updates since the last report, applied to cleared ones |
| Meter.ReportIsWindow | gala-gopher/src/probes/extends/ebpf.probe/src/endpointprobe/output.h:115-130 | every report carries exactly the updates of its entry since the previous one |
| Meter.EntryStamp | gala-gopher/src/probes/extends/ebpf.probe/src/endpointprobe/output.h:115-130 | an entry exists from the first call on its key that finds room, and is stamped with the last report of the key, or with its creation before that |
| Meter.ReportsIff | gala-gopher/src/probes/extends/ebpf.probe/src/endpointprobe/output.h:115-130 | a call reports exactly if it makes the entry and its rule is not to stay silent, or if it always reports and its clock is not ahead of the last report of the key, or at least a period ahead of it |
| Meter.PutIsLast | gala-gopher/src/probes/extends/ebpf.probe/src/tcpprobe/tcpprobe.bpf.c:397-468 | a stored value ends as the last one stored |
| Meter.RaisedIsMaximum | gala-gopher/src/probes/extends/ebpf.probe/src/tcpprobe/tcpprobe.bpf.c:397-468 | a `max` gauge ends with the largest sample of its window |
| Meter.LoweredIsMinimum | gala-gopher/src/probes/extends/ebpf.probe/src/tcpprobe/tcpprobe.bpf.c:397-468 | a `min_zero` gauge ends with the least sample since the last zero one, so a zero sample makes it forget the earlier ones |
| Meter.ReportsSpaced | gala-gopher/src/probes/extends/ebpf.probe/src/endpointprobe/output.h:115-130 | on a strictly advancing clock, reports of one entry are at least a period apart |
| EndpointLog.OwnersHold | gala-gopher/src/probes/extends/ebpf.probe/src/endpointprobe/output.h:76-85 | in every run the tracked sockets and their owners are those the event log tells of: the last one the filter let through, until the release |
| EndpointLog.CountersFromLog | gala-gopher/src/probes/extends/ebpf.probe/src/endpointprobe/tcp.bpf.c:92-356 | for every endpoint and each of its eleven counters, reported plus pending is the sum of what the events on its sockets count, told from their fields alone: sent lengths for sends, received ones for receives, connects by their result, and so on |
| EndpointLog.EndpointReportsIff | gala-gopher/src/probes/extends/ebpf.probe/src/endpointprobe/output.h:115-130 | over every run a report leaves exactly with the first event of an endpoint, if that may report, or with an event that may, not ahead of the last report or a period or more ahead of it |
| Endpoint.ProtocolsSeparate | gala-gopher/src/probes/extends/ebpf.probe/src/endpointprobe/udp.bpf.c:43-117 | no TCP endpoint ever holds or reports a UDP count, nor the other way round |
| Endpoint.EndpointReportsSpaced | gala-gopher/src/probes/extends/ebpf.probe/src/endpointprobe/output.h:115-130 | reports of one endpoint are at least a period apart, whichever sockets cause them |
| TcpProbe.SharedIff | gala-gopher/src/probes/extends/ebpf.probe/src/tcpprobe/tcpprobe.bpf.c:95-148 | which sockets share a link: same process, role, hosts and server port, and same client port exactly if the setting asks for it |
| TcpLog.SocketsFromLog | gala-gopher/src/probes/extends/ebpf.probe/src/tcpprobe/tcpprobe.bpf.c:207-310 | in every run a tracked socket has the role its connection was opened with (client from SYN_SENT, server from SYN_RECV, or that of an old descriptor) and the process that last used it; while the map is not full none is missing |
| TcpLog.SocketsBounded | gala-gopher/src/probes/extends/ebpf.probe/src/tcpprobe/tcpprobe.bpf.c:38-43 | it never tracks more than 10240 sockets |
| TcpLog.CountersFromLog | gala-gopher/src/probes/extends/ebpf.probe/src/tcpprobe/tcpprobe.bpf.c:179-256 | for every link and counter, reported plus pending is the sum of what the events on its sockets count, told from their fields: modulo 2^64 for the bytes and 2^32 for the health counters, and exactly while it fits |
| TcpLog.LinkReportsIff | gala-gopher/src/probes/extends/ebpf.probe/src/tcpprobe/tcpprobe.bpf.c:241-256 | a report leaves exactly with the first event of a link, or with one not ahead of its last report or a period or more ahead of it |
| TcpLog.ReportCarriesSamples | gala-gopher/src/probes/extends/ebpf.probe/src/tcpprobe/tcpprobe.bpf.c:312-468 | every report carries what its link sampled since its previous one: each maximum gauge its largest reading, each minimum gauge the least since the last zero, each stored value the last |
| TcpProbe.LinkReportsSpaced | gala-gopher/src/probes/extends/ebpf.probe/src/tcpprobe/tcpprobe.bpf.c:241-256 | reports of one link are at least a period apart |
| SsParser.FindIsFirst | gala-gopher/src/probes/extends/ebpf.probe/src/lib/tcp.c:61-108 | the substring search finds the first occurrence, and -1 exactly if there is none |
| SsParser.ChunksJoined | gala-gopher/src/probes/extends/ebpf.probe/src/lib/tcp.c:323-345 | the loop cuts a printed user list at its separators and nowhere else |
| SsParser.AddressReads | gala-gopher/src/probes/extends/ebpf.probe/src/lib/tcp.c:140-178 | a printed address and port come back, and the brackets decide the IPv4 flag |
| SsParser.AddressIff | gala-gopher/src/probes/extends/ebpf.probe/src/lib/tcp.c:140-178 | text with a colon and no colon behind it is read as an address exactly if something stands in front of it and 1 to 10 digits behind; the port is their number, the host the text in brackets or all of it |
| SsParser.BracketsIff | gala-gopher/src/probes/extends/ebpf.probe/src/lib/tcp.c:110-134 | brackets are erased exactly if 1 to 127 characters stand between the first ones |
| SsParser.LeadingSeparator | gala-gopher/src/probes/extends/ebpf.probe/src/lib/tcp.c:323-345 | a list that begins with a separator is handed on whole |
| SsParser.AtoiCuts | gala-gopher/src/probes/extends/ebpf.probe/src/lib/tcp.c:140-210 | a number is cut to its low 32 bits, and from 2^63 on reads as the largest of them |
| SsParser.ReadableIff | gala-gopher/src/probes/extends/ebpf.probe/src/lib/tcp.c:180-210 | a process name comes back with every pair of numbers exactly if it has 1 to 15 characters, does not begin with a comma and holds no `)`, `",`, `pid=` or `,fd` |
| SsParser.SdPamIsLost | gala-gopher/src/probes/extends/ebpf.probe/src/lib/tcp.c:180-210 | `(sd-pam)` is never read |
| SsParser.LineReadsBack | gala-gopher/src/probes/extends/ebpf.probe/src/lib/tcp.c:290-350 | every well-formed line yields the printed addresses, ports and IPv4 flags and its users in order, the first 32 of them, with or without the newline |
| SsParser.NoUsersNoRecord | gala-gopher/src/probes/extends/ebpf.probe/src/lib/tcp.c:313-316 | a line without users yields no connection |
| Listeners.SingleListener | gala-gopher/src/probes/extends/ebpf.probe/src/lib/tcp.c:393-503 | a printed socket of one process becomes a listener with the printed values |
| Listeners.ListenNameIff | gala-gopher/src/probes/extends/ebpf.probe/src/lib/tcp.c:393-503 | a process name comes back from its listening line with every pair of numbers exactly if it has 1 to 15 characters, does not begin with `,pid`, holds no `",pid`, `pid=`, `fd=` or `))`, and behind a host without brackets no `]:` |
| Listeners.PortIff | gala-gopher/src/probes/extends/ebpf.probe/src/lib/tcp.c:393-417 | the port between the first separator and the users is read exactly if it has 1 to 10 digits and is below 65536 |
| Listeners.SharedListenerIsLost | gala-gopher/src/probes/extends/ebpf.probe/src/lib/tcp.c:454-468 | a printed socket of several processes is not recorded, because its descriptor runs to the last parenthesis |
| ListenPorts.CollectedPorts | gala-gopher/src/probes/extends/ebpf.probe/src/lib/tcp.c:532-574 | ports are distinct, at most 1024, never unreported, and none is missing while the list is not full |
| ListenPorts.RoleOfConnection | gala-gopher/src/probes/extends/ebpf.probe/src/lib/tcp.c:606-629 | from the printed sockets: while the list is not full a connection is a server connection exactly if one process alone listens on its local port; behind a shared port it counts as a client |
| Fifo.Fifo.constructor | gala-gopher/src/lib/fifo/fifo.c:31-61 | a new ring is valid and empty |
| Fifo.Fifo.Create | gala-gopher/src/lib/fifo/fifo.c:31-61 | creation succeeds exactly for powers of two and yields an empty ring |
| Fifo.Fifo.Store | gala-gopher/src/lib/fifo/fifo.c:82-99 | the two-part copy stores the element in the masked slot; its second part is always empty |
| Fifo.Fifo.Put | gala-gopher/src/lib/fifo/fifo.c:82-99 | full: -1 as a 32-bit word and no change; otherwise 0 and the element is last |
| Fifo.Fifo.Get | gala-gopher/src/lib/fifo/fifo.c:101-118 | empty: -1 as a 32-bit word and no change; otherwise 0 and the element that was first |
| Numbers.CollectDigits | gala-gopher/src/lib/probe/probe.c:189-278 | the digit loop fills at most 64 entries of its buffer, least significant first, and they are the numeral of the value |
| Numbers.SplitSign | gala-gopher/src/lib/probe/probe.c:189-278 | sign character and magnitude of the 64-bit word, and the width left for the digits |
| Numbers.EmitDigits | gala-gopher/src/lib/probe/probe.c:189-278 | the collected digits come out most significant first |
| Numbers.EmitHead | gala-gopher/src/lib/probe/probe.c:189-278 | leading blanks, sign, prefix and zero padding, with left-justification overriding zero padding |
| Numbers.Number | gala-gopher/src/lib/probe/probe.c:189-278 | appends exactly the specified field; an unsupported base appends nothing |
| Printf.SkipAtoiLoop | gala-gopher/src/lib/probe/probe.c:179-187 | reads a run of digits and stops behind it |
| Printf.ScanFlagsLoop | gala-gopher/src/lib/probe/probe.c:303-479 | collects every leading flag character |
| Printf.WidthInto | gala-gopher/src/lib/probe/probe.c:303-479 | field width from digits or from an argument; a negative argument left-justifies |
| Printf.PrecisionInto | gala-gopher/src/lib/probe/probe.c:303-479 | precision from digits or from an argument; anything negative counts as zero |
| Printf.ConvertInto | gala-gopher/src/lib/probe/probe.c:303-479 | the conversion switch appends the text of the argument the conversion fetches |
| Printf.DirectiveInto | gala-gopher/src/lib/probe/probe.c:303-479 | one directive consumes its part of the format and its arguments and appends its text |
| Printf.Print | gala-gopher/src/lib/probe/probe.c:280-480 | the whole loop puts the formatted string into the fifo buffer |
| Records.Record.constructor | gala-gopher/src/lib/imdb/imdb.c:77-118 | a new record is empty and its key is zeroed |
| Records.Record.AddMetric | gala-gopher/src/lib/imdb/imdb.c:120-128 | appends a metric, and fails without change exactly at capacity |
| Records.Record.AppendKey | gala-gopher/src/lib/imdb/imdb.c:130-143 | writes one key slot and nothing else, and fails without change exactly if the slot lies outside the key |
| Records.Strsep | gala-gopher/src/lib/imdb/imdb.c:349-423 | delivers the tokens of the separator split one after the other |
| Records.AddValue | gala-gopher/src/lib/imdb/imdb.c:379-413 | adding one value to the record and, for a key field, to slot `keyIdx` never fails, because `keyIdx` is the number of key fields before `index` |
| Records.ParseContent | gala-gopher/src/lib/imdb/imdb.c:349-423 | with a loaded meta the parse never fails and builds exactly the record of the parsed values, metrics and key |
| Tables.Table.constructor | gala-gopher/src/lib/imdb/imdb.c:169-187 | a new table is empty and satisfies the table invariant |
| Tables.Table.Load | gala-gopher/src/resource/resource.c:342-378 | loading a measurement makes the meta of its fields and sizes the key by the number of key fields; no fields is an error |
| Tables.Table.AddRecord | gala-gopher/src/lib/imdb/imdb.c:201-219 | the in-place upsert with uthash is the upsert of the row list, stamped with the time |
| Tables.Table.CreateRec | gala-gopher/src/lib/imdb/imdb.c:426-457 | parse and insert fail only without key fields or for a full table, and then change nothing |
| Scrape.Snprintf | gala-gopher/src/lib/imdb/imdb.c:662-681 | cursor plus remaining length is constant; the write succeeds exactly if text and NUL fit and only then moves the cursor |
| Scrape.BuildLabel | gala-gopher/src/lib/imdb/imdb.c:751-795 | the label text, comma-separated, or failure exactly if it does not fit its 512 bytes |
| Scrape.BuildPrometheusMetrics | gala-gopher/src/lib/imdb/imdb.c:724-748 | one whole line, or -1 with the cursor unmoved exactly if it does not fit |
| Scrape.Rec2Prometheus | gala-gopher/src/lib/imdb/imdb.c:852-884 | the lines of a row that fit, and their total length |
| Scrape.Tbl2Prometheus | gala-gopher/src/lib/imdb/imdb.c:888-944 | the in-place loop over cursor, remaining length and record list is the table scrape, in what it writes, deletes and returns |
| Scrape.ScrapeStep | gala-gopher/src/lib/imdb/imdb.c:946-970 | one round over the tables changes one table and advances the cursor by what it wrote |
| Scrape.DataBase2Prometheus | gala-gopher/src/lib/imdb/imdb.c:946-970 | the whole scrape writes the pages of the tables one behind the other and stops at the first failure with the tables behind it untouched |
| Ingress.GetTableNameAndContent | gala-gopher/src/ingress/ingress.c:122-147 | succeeds exactly on a bar, a name of 1 to 31 characters and a content that begins with the next bar, and then they concatenate to the line |
| Ingress.Database.AddTable | gala-gopher/src/lib/imdb/imdb.c:322-336 | refuses a full database and a second table of one name |
| Ingress.Database.FindTable | gala-gopher/src/lib/imdb/imdb.c:338-347 | finds the table of that name if there is one |
| Ingress.Database.Process | gala-gopher/src/ingress/ingress.c:165-202 | a message changes at most the table it names, by one upsert of its row; dirty lines, unknown tables, keyless tables and a switched-off web server change nothing; it is forwarded exactly if egress is on and its table did not refuse it |
| RoundTrip.ExtendProbe.Accept | gala-gopher/src/lib/probe/extend_probe.c:95-127 | one character: a newline hands the carried text on, any other joins it; fails exactly if its write would lie outside the allocation |
| RoundTrip.ExtendProbe.Feed | gala-gopher/src/lib/probe/extend_probe.c:82-129 | one `fgets` buffer: skipped unless it begins with a bar, otherwise added to the carried text, which is handed on without its newline when complete; stays inside exactly if carried text and buffer have at most 2048 characters |
| RoundTrip.ExtendProbe.Run | gala-gopher/src/lib/probe/extend_probe.c:82-129 | all buffers of a probe, one after the other, up to the first write outside the allocation |
| Resp.ParseChar | gala-gopher/src/probes/extends/ebpf.probe/src/ksliprobe/ksliprobe.bpf.c:172-221 | one character of the recogniser |
| Resp.IdentifyRedis | gala-gopher/src/probes/extends/ebpf.probe/src/ksliprobe/ksliprobe.bpf.c:223-237 | the scan loop runs the automaton over 29 characters with the write index in bounds |
| Resp.ParseReq | gala-gopher/src/probes/extends/ebpf.probe/src/ksliprobe/ksliprobe.bpf.c:239-258 | copy and scan of a request |
| Resp.PackCommand | gala-gopher/src/probes/extends/python.probe/redis_client.probe/client-async.py:95-112 | the printer of the client: encodes bytes, texts and numbers and packs them, and refuses anything else |
| Ksli.Connection.constructor | gala-gopher/src/probes/extends/ebpf.probe/src/ksliprobe/ksliprobe.bpf.c:96-142 | a new connection is in its initial phase with nothing sampled |
| Ksli.Connection.ReportIfDue | gala-gopher/src/probes/extends/ebpf.probe/src/ksliprobe/ksliprobe.bpf.c:261-285 | reports and restarts the window exactly when due |
| Ksli.Connection.HarvestSample | gala-gopher/src/probes/extends/ebpf.probe/src/ksliprobe/ksliprobe.bpf.c:311-327 | folds the finished sample into the statistics and clears the command |
| Ksli.Connection.OnRead | gala-gopher/src/probes/extends/ebpf.probe/src/ksliprobe/ksliprobe.bpf.c:288-357 | the read handler: report, harvest, age check, recognition, start of a cycle |
| Ksli.Connection.OnWrite | gala-gopher/src/probes/extends/ebpf.probe/src/ksliprobe/ksliprobe.bpf.c:350-354 | the write handler |
| Ksli.Connection.OnSent | gala-gopher/src/probes/extends/ebpf.probe/src/ksliprobe/ksliprobe.bpf.c:414-430 | the segment-queued handler |
| Ksli.Connection.OnDelivered | gala-gopher/src/probes/extends/ebpf.probe/src/ksliprobe/ksliprobe.bpf.c:433-455 | the segment-delivered handler |
| Ksli.Connection.OnRecv | gala-gopher/src/probes/extends/ebpf.probe/src/ksliprobe/ksliprobe.bpf.c:457-474 | the receive handler |
| RedisSli.Probe.ReadQueryFromClient | gala-gopher/src/probes/extends/ebpf.probe/src/sliprobe/redissli.bpf.c:116-141 | creates the connection or notes the time of the read unless a sample is under way |
| RedisSli.Probe.ProcessCommandEntry | gala-gopher/src/probes/extends/ebpf.probe/src/sliprobe/redissli.bpf.c:143-178 | starts a sample on a connection that has none |
| RedisSli.Probe.ProcessCommandReturn | gala-gopher/src/probes/extends/ebpf.probe/src/sliprobe/redissli.bpf.c:180-220 | notes where the reply goes, or finishes a command without reply |
| RedisSli.Probe.WriteToClientEntry | gala-gopher/src/probes/extends/ebpf.probe/src/sliprobe/redissli.bpf.c:222-236 | notes the reply positions before the write |
| RedisSli.Probe.WriteToClientReturn | gala-gopher/src/probes/extends/ebpf.probe/src/sliprobe/redissli.bpf.c:249-306 | finishes the command when its reply has gone and submits once the period is over |
| RedisSli.Probe.FreeClientHandler | gala-gopher/src/probes/extends/ebpf.probe/src/sliprobe/redissli.bpf.c:308-328 | submits a finished sample and forgets the connection |
| BlockStats.BlockData.CalcLatency | gala-gopher/src/probes/extends/ebpf.probe/src/blockprobe/block.h:98-132 | the update of the four structures in place |
| BlockStats.LatencyStats.Fold | gala-gopher/src/probes/extends/ebpf.probe/src/blockprobe/block.h:46-62 | the incremental update macro |
| BlockStats.LatencyStats.Start | gala-gopher/src/probes/extends/ebpf.probe/src/blockprobe/block.h:64-72 | the initialising macro |
| Meter.Table.Get | gala-gopher/src/probes/extends/ebpf.probe/src/endpointprobe/tcp.bpf.c:92-127 | look-up that creates a missing entry if there is room |
| Meter.Table.Increment | gala-gopher/src/probes/extends/ebpf.probe/src/endpointprobe/output.h:132-133 | the atomic adds of one handler, with wrap-around |
| Meter.Table.ReportEntry | gala-gopher/src/probes/extends/ebpf.probe/src/endpointprobe/output.h:115-130 | a new entry is reported at once, an old one unless its period is still running; then it is cleared |
| Meter.Table.Handle | gala-gopher/src/probes/extends/ebpf.probe/src/endpointprobe/output.h:115-133 | look-up, counting and report of one handler, as every handler of both probes does it |
| Endpoint.Probe.Count | gala-gopher/src/probes/extends/ebpf.probe/src/endpointprobe/tcp.bpf.c:92-127 | the entry of the socket's owner and protocol is looked up, counted in and reported |
| Endpoint.Probe.SockRelease | gala-gopher/src/probes/extends/ebpf.probe/src/endpointprobe/tcp.bpf.c:167-172 | forgets a socket |
| Endpoint.Probe.InetListen | gala-gopher/src/probes/extends/ebpf.probe/src/endpointprobe/tcp.bpf.c:174-180 | tracks a listener and reports it if its entry is new |
| Endpoint.Probe.SysAccept4 | gala-gopher/src/probes/extends/ebpf.probe/src/endpointprobe/tcp.bpf.c:182-216 | counts the first accept on a descriptor from before the start, and no other |
| Endpoint.Probe.TcpConnectReturn | gala-gopher/src/probes/extends/ebpf.probe/src/endpointprobe/tcp.bpf.c:218-243 | counts an opened or failed connection |
| Endpoint.Probe.TcpConnRequest | gala-gopher/src/probes/extends/ebpf.probe/src/endpointprobe/tcp.bpf.c:245-268 | counts full queues and reports only then |
| Endpoint.Probe.TcpReqErr | gala-gopher/src/probes/extends/ebpf.probe/src/endpointprobe/tcp.bpf.c:270-289 | counts an aborted request as a drop |
| Endpoint.Probe.TcpCreateOpenreqChild | gala-gopher/src/probes/extends/ebpf.probe/src/endpointprobe/tcp.bpf.c:291-316 | counts a child or a drop without a report |
| Endpoint.Probe.TcpCheckReq | gala-gopher/src/probes/extends/ebpf.probe/src/endpointprobe/tcp.bpf.c:319-342 | counts a failed request without a report |
| Endpoint.Probe.TcpRetransmitSynack | gala-gopher/src/probes/extends/ebpf.probe/src/endpointprobe/tcp.bpf.c:344-357 | counts a retransmission |
| Endpoint.Probe.InetBindReturn | gala-gopher/src/probes/extends/ebpf.probe/src/endpointprobe/udp.bpf.c:129-155 | tracks a bound datagram socket |
| Endpoint.Probe.UdpSendmsg | gala-gopher/src/probes/extends/ebpf.probe/src/endpointprobe/udp.bpf.c:157-170 | adds the length sent |
| Endpoint.Probe.UdpRecvmsg | gala-gopher/src/probes/extends/ebpf.probe/src/endpointprobe/udp.bpf.c:172-185 | adds the length asked for |
| Endpoint.Probe.UdpFailQueueRcvSkb | gala-gopher/src/probes/extends/ebpf.probe/src/endpointprobe/udp.bpf.c:187-200 | counts a failed enqueue without a report |
| Endpoint.Probe.UdpInitSock | gala-gopher/src/probes/extends/ebpf.probe/src/endpointprobe/udp.bpf.c:202-207 | tracks a client socket |
| TcpProbe.Probe.DeleteTcpLink | gala-gopher/src/probes/extends/ebpf.probe/src/tcpprobe/tcpprobe.bpf.c:161-177 | returns before deleting anything; it follows that the link map only grows (`LinksNeverForgotten`) |
| TcpProbe.Probe.LoadTcpFd | gala-gopher/src/probes/extends/ebpf.probe/src/tcpprobe/tcpprobe.bpf.c:269-310 | loads the old descriptors of a process once |
| TcpProbe.Probe.Count | gala-gopher/src/probes/extends/ebpf.probe/src/tcpprobe/tcpprobe.bpf.c:179-205 | the entry of the socket's link is looked up, updated and reported |
| TcpProbe.Probe.TcpSetState | gala-gopher/src/probes/extends/ebpf.probe/src/tcpprobe/tcpprobe.bpf.c:470-495 | an established connection becomes a socket with its role and no owner yet |
| TcpProbe.Probe.TcpDestroySock | gala-gopher/src/probes/extends/ebpf.probe/src/tcpprobe/tcpprobe.bpf.c:497-501 | forgets a socket |
| TcpProbe.Probe.TcpSendmsg | gala-gopher/src/probes/extends/ebpf.probe/src/tcpprobe/tcpprobe.bpf.c:503-524 | claims the socket, adds the bytes sent and samples the gauges |
| TcpProbe.Probe.TcpRecvmsg | gala-gopher/src/probes/extends/ebpf.probe/src/tcpprobe/tcpprobe.bpf.c:526-545 | claims the socket and samples the gauges |
| TcpProbe.Probe.TcpAddBacklogReturn | gala-gopher/src/probes/extends/ebpf.probe/src/tcpprobe/tcpprobe.bpf.c:547-567 | counts a backlog drop |
| TcpProbe.Probe.TcpFilterReturn | gala-gopher/src/probes/extends/ebpf.probe/src/tcpprobe/tcpprobe.bpf.c:569-589 | counts a filter drop |
| TcpProbe.Probe.TcpWriteErr | gala-gopher/src/probes/extends/ebpf.probe/src/tcpprobe/tcpprobe.bpf.c:591-603 | counts a timeout |
| TcpProbe.Probe.TcpCleanupRbuf | gala-gopher/src/probes/extends/ebpf.probe/src/tcpprobe/tcpprobe.bpf.c:605-621 | adds the bytes received, if any |
| TcpProbe.Probe.SockExceedBufLimit | gala-gopher/src/probes/extends/ebpf.probe/src/tcpprobe/tcpprobe.bpf.c:623-635 | counts an exceeded send buffer |
| TcpProbe.Probe.TcpSendReset | gala-gopher/src/probes/extends/ebpf.probe/src/tcpprobe/tcpprobe.bpf.c:637-649 | counts a reset sent |
| TcpProbe.Probe.TcpReceiveReset | gala-gopher/src/probes/extends/ebpf.probe/src/tcpprobe/tcpprobe.bpf.c:651-663 | counts a reset received |
| TcpProbe.Probe.TcpRetransmitSkb | gala-gopher/src/probes/extends/ebpf.probe/src/tcpprobe/tcpprobe.bpf.c:665-678 | adds the retransmitted segments as a signed number |
| TcpProbe.Probe.TcpDone | gala-gopher/src/probes/extends/ebpf.probe/src/tcpprobe/tcpprobe.bpf.c:680-695 | counts a failed attempt |
| TcpProbe.Probe.TcpTryRmemScheduleReturn | gala-gopher/src/probes/extends/ebpf.probe/src/tcpprobe/tcpprobe.bpf.c:697-724 | counts a failed memory schedule |
| TcpProbe.Probe.TcpCheckOomReturn | gala-gopher/src/probes/extends/ebpf.probe/src/tcpprobe/tcpprobe.bpf.c:726-754 | counts an out-of-memory |
| SsParser.GetSubStr | gala-gopher/src/probes/extends/ebpf.probe/src/lib/tcp.c:72-108 | copies the text from behind the first start to the first end, both from the beginning, and leaves the buffer alone unless it is non-empty and fits |
| SsParser.IsDigitStr | gala-gopher/src/probes/extends/ebpf.probe/src/lib/tcp.c:51-59 | only digits; also true of the empty string |
| SsParser.EraseSquareBrackets | gala-gopher/src/probes/extends/ebpf.probe/src/lib/tcp.c:110-134 | the text between the first brackets |
| SsParser.GetEstabAddr | gala-gopher/src/probes/extends/ebpf.probe/src/lib/tcp.c:140-178 | address and port around the last colon |
| SsParser.GetEstabComm | gala-gopher/src/probes/extends/ebpf.probe/src/lib/tcp.c:180-210 | name, process and descriptor of one chunk |
| SsParser.GetUsers | gala-gopher/src/probes/extends/ebpf.probe/src/lib/tcp.c:323-345 | the splitting loop terminates, its position strictly advances, and it keeps at most 32 users |
| SsParser.GetEstab | gala-gopher/src/probes/extends/ebpf.probe/src/lib/tcp.c:290-350 | one line of a connection |
| Listeners.NewTlp | gala-gopher/src/probes/extends/ebpf.probe/src/lib/tcp.c:470-503 | port, name, process and descriptor of a listening line, or nothing |
| ListenPorts.PortIndex.constructor | gala-gopher/src/probes/extends/ebpf.probe/src/lib/tcp.c:505-514 | an empty list and no bit set |
| ListenPorts.PortIndex.AddTlp | gala-gopher/src/probes/extends/ebpf.probe/src/lib/tcp.c:532-545 | appends exactly if the port is new and the list has room; list and bits keep agreeing |
| ListenPorts.PortIndex.IsListenPort | gala-gopher/src/probes/extends/ebpf.probe/src/lib/tcp.c:576-582 | true exactly for listed ports, also outside the array |
| ListenPorts.PortIndex.GetTlps | gala-gopher/src/probes/extends/ebpf.probe/src/lib/tcp.c:547-574 | collects the listeners of all lines |
| ListenPorts.GetEstabTcps | gala-gopher/src/probes/extends/ebpf.probe/src/lib/tcp.c:606-629 | each connection is a server connection exactly if its local port is listed |
| ListenPorts.AddTcpEndpoint | gala-gopher/src/probes/extends/ebpf.probe/src/lib/tcp.c:637-644 | adding an entry keeps the table the cut at 1024 of everything that was ever to be added |
| ListenPorts.GetTcpEndpoints | gala-gopher/src/probes/extends/ebpf.probe/src/lib/tcp.c:725-761 | the table is the listeners followed by one entry per connection and user, cut at 1024 |

## Left out

- Memory ordering below the barriers: each step between two barriers of the ring is atomic and sequentially consistent.
- The eventfd counter is unbounded: a write that blocks because the counter is at its limit is not modelled, nor is a failing write.
- One ring per producer: epoll over several rings is the choice of which ring steps next and adds no new state.
- Printf.Print: the `%f`, `%p` and `%n` conversions, undefined calls (missing or mistyped arguments), and formatted lines of 2048 bytes or more.
- Printf.DirectiveInto: directives that end in `%f`, `%p` or `%n`.
- Printf.ConvertInto: the `%f`, `%p` and `%n` conversions.
- Values containing `%`, which the database passes on as formats, and values containing NUL.
- Records.Record.AppendKey: the key index is a mathematical number; its 32-bit product cannot wrap with the at most 128 fields a table has.
- Locks, memory exhaustion and the destroy functions: database operations are sequential calls, and a scrape that runs while a row is inserted is not modelled.
- Ingress.Database.Process: a failed conversion to JSON and a full egress ring, which also stop a message, are not modelled.
- RoundTrip.ExtendProbe.Feed: what the program does after a write outside the allocation, a full ring, which drops the line, and NUL characters in the output of a probe, which end a buffer early, are not modelled.
- The JSON path to Kafka, the older `IMDB_DataBaseMgrAddRecord`, the web server, configuration files, and the probe loaders.
- Escaping of label values, which the exporter does not do either.
- Scrape.Tbl2Prometheus: one clock reading per table stands for one per line.
- Reading `/proc`, pipes and kernel structures: their results are parameters of the events; a full map is a flag of the event or, for the TCP probe's sockets, a bound.
- Races of one probe program on several processors: each handler is one atomic step, so the gap between a report and its clearing is not modelled.
- Ksli.Connection.OnRead: one connection at a time; accept and close are the start and the end of a run, and the socket map is not modelled.
- Resp.PackCommand: the printed form of a float is a parameter, and text is taken to be its own encoding.
- TcpProbe.Probe.Count: the last handshake round trip, which an entry keeps across its reports, is not modelled.
- TcpProbe.Probe.TcpSetState: nor is the handshake round trip a server socket starts with.
- BlockStats.BlockData.CalcLatency: the error counters that are cleared with the statistics are not modelled.
- Endpoint.Probe.UdpFailQueueRcvSkb: the last error code is not modelled.
- ListenPorts.GetTcpEndpoints: addresses stay texts; their conversion to binary is not modelled.
- SsParser.LineReadsBack: lines of 512 characters or more, which arrive in pieces.
- Numbers of more than 32 bits in `ss` output are cut as the GNU C library does it; the C standard leaves that open.
