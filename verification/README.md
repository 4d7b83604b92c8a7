# Graphite proxy: a verified model

The proxy receives Graphite text messages (`name value timestamp`). A message either waits in a buffer
of its metric until it is sent to the Graphite server, or it goes to the maths pipeline, which aggregates
the messages of a metric and hands the results to the same buffers. What is still pending at shutdown
is saved to two files and read back at the next start.

This project models that path and proves what it promises:

- **Buffers, flushing and the timer.** `MessageBuffers`, `GlobalBuffers`, `Clients` and `Timers` are
  classes in the shape of the program's own; each method is proved against a function of `Queues`,
  `Store` or `Delivery`. The link to the server is an arbitrary sequence of successes and failures, and
  what was written to the socket is recorded. `Interleaving` and `Arrival` take the same operations as
  the atomic steps of a concurrent system and prove conservation, the rule for full buffers and arrival
  order for every run.
- **The cleaner.** `Cleaners` ties its counters to the observation history of each sub-buffer.
- **The maths pipeline.** `Aggregates` computes with loops over exact reals, `AggregateLaws` and `Ranks`
  prove what the aggregations mean, and `Evaluation` says what each type of computation yields. `Windows`
  is the catch-up loop of computations on time, `Runs` is about whole runs of one operation, `Pipelines`
  is the object with its nested loops, and `PipelineRuns` shows that a run of the whole pipeline is, for
  each operation, such a run.
- **Text and files.** `Text`, `Numbers`, `Messages` and `Time` are the printers and parsers;
  `SaveLoad`, `MathsSave` and `Routers` are saving and loading, `Restarts` and
  `RoundedRestarts` are both together.

`Ordering` is the order in which a `std::map` with string keys is walked, and `RealAlgebra` holds facts
about real numbers. `dafny verify dfyconfig.toml` checks everything.

## Where the code does not do what one would expect

Each of these is followed by the model as the code has it. The exact condition under which the code does
what one would expect is proved, and an input or a state the program can reach shows the failure.

- The result of an aggregation carries the name of its metric, so a category wants it
  (`PipelineRuns.ResultsAreWanted`). When results are pending for the server at shutdown, loading gives
  them to the pipeline, where they are aggregated again (`Restarts.SumIsSummedAgain`). Pass-through
  messages come back exactly when no category wants any of them (`SaveLoad.PassThroughComesBack`), and
  `Restarts.ReloadedOperation` says what each operation holds afterwards in every case.
- A saved maths message is given to the first operation with the type named on its line. With the same
  type twice in a category, the first operation collects the messages of both, as many as fit, and the
  second one is left with none (`MathsSave.OperationComesBack`, `Restarts.TwoSumsLose`). Maths messages
  come back exactly when no non-empty operation stands behind another of its type
  (`MathsSave.MathsComeBack`).
- Messages can overtake older ones of their metric that the timer has in hand, in three ways: they are
  offered while those are being put back, their sub-buffer fills up and is delivered before those are
  sent, or they were offered after the timer took those and then sending fails. The second needs no
  failure at all (`Arrival.LostByFlush`, `Arrival.LostByFailure`). When no message of a metric is offered
  twice, it is in order of arrival at every moment of a run exactly when none of these happens to it
  (`Arrival.ArrivalOrderExactly`).
- `createMessages` is documented to tell whether at least one message could be created; it tells whether
  the container is non-empty. That is the same exactly when the container was empty before or something
  was created (`Messages.CreatesAsDocumented`); an empty text and a container with a message show the
  difference (`Messages.NothingCreated`).
- `serialize` and `load` of the router are documented to return a number of messages, or -1 for an error.
  They add up the results for both files, -1 for a failure included, but a failure to save the maths file
  does not show. `Routers.SavesAsDocumented` and `Routers.LoadsAsDocumented` say exactly when the result
  is the documented one; `Restarts.SaveMisreports` and `Restarts.LoadMisreports` are cases where it is
  not, the latter the first start of a proxy.
- A printed line reads back as its message only when the value has no more than six decimals and the
  name can stand on a line (`Messages.LineRoundTrip`); a message that was read from a line but has seven
  decimals is lost (`Messages.SmallValueIsLost`). Over a restart every value is rounded
  (`RoundedRestarts.RoundedProxyComesBack`).

## Model

| member | source | states |
|---|---|---|
| Text.TrimSandwich | src/library/graphite_proxy/models/message.cpp:31 | trimming removes the white space around a text and nothing else; all of a blank text |
| Text.SplitJoins | src/library/graphite_proxy/models/message.cpp:34 | joining what a split yields gives the text back, and no part contains the separator |
| Text.SplitAppend | src/library/graphite_proxy/models/message.cpp:63 | two texts with a separator between them are split one after the other |
| Numbers.ULongRoundTrip | src/library/graphite_proxy/models/message.cpp:82 | every unsigned 64-bit number is read back from its decimal print |
| Numbers.UnsignedNumbersAreRead | src/library/graphite_proxy/models/message.cpp:48 | for every n, its print with or without a plus sign is read as n if and only if n is below 2^64, and with a minus sign as 2^64 - n |
| Numbers.OthersAreNotUnsigned | src/library/graphite_proxy/models/message.cpp:48 | nothing is read as an unsigned number but a sign at most and digits |
| Numbers.ValueRoundTrip | src/library/graphite_proxy/models/message.cpp:81 | reading a printed value, negative ones included, gives the value rounded to six decimals |
| Numbers.RoundedExact | src/library/graphite_proxy/models/message.cpp:81 | printing loses nothing exactly when the value has no more than six decimals |
| Numbers.RoundedIsClose | src/library/graphite_proxy/models/message.cpp:81 | the printed value is off by half a millionth at most |
| Numbers.TiesGoToEven | src/library/graphite_proxy/models/message.cpp:81 | a value halfway between two millionths is printed as the even one |
| Numbers.PrintedForm | src/library/graphite_proxy/models/message.cpp:81 | what is printed, character by character: a minus sign for a negative value, digits without a needless zero in front, a point, six digits |
| Numbers.WholeNumbersAreRead | src/library/graphite_proxy/models/message.cpp:45 | every whole number, with either sign or none, is read as itself |
| Numbers.DecimalNumbersAreRead | src/library/graphite_proxy/models/message.cpp:45 | so is a whole part followed by any number of decimals |
| Numbers.ScaledNumbersAreRead | src/library/graphite_proxy/models/message.cpp:45 | n written with d decimals is read as n / 10^d with its sign |
| Numbers.OthersAreNoValues | src/library/graphite_proxy/models/message.cpp:45 | nothing is read as a value but a sign at most, digits and points |
| Messages.LineReadsBack | src/library/graphite_proxy/models/message.cpp:28-89 | under any surrounding white space a printed line is read as its message, the value rounded to six decimals |
| Messages.FieldsAreRead | src/library/graphite_proxy/models/message.cpp:28-57 | under any surrounding white space three fields make a message of their name, value and time if and only if value and time can be read |
| Messages.WholeValuesAreRead | src/library/graphite_proxy/models/message.cpp:45 | a line with a whole number is read as the message with exactly that value |
| Messages.OtherLinesAreRefused | src/library/graphite_proxy/models/message.cpp:37-38 | a line with another number of fields, or an empty field, holds no message |
| Messages.ReadIsNameable | src/library/graphite_proxy/models/message.cpp:37-40 | every message that was parsed has a non-empty name without blanks |
| Messages.LineRoundTrip | src/library/graphite_proxy/models/message.cpp:28-89 | a line reads back as the message it was printed for if and only if the name can be carried and the value has at most six decimals |
| Messages.CreateMessages | src/library/graphite_proxy/models/message.cpp:59-74 | appends exactly the messages of the lines that hold one, in order; true exactly when the container ends up non-empty |
| Messages.TextsAreReadInTurn | src/library/graphite_proxy/models/message.cpp:59-72 | the messages of two texts with a line break between them are those of the one, then those of the other; the last line needs no line break |
| Messages.CreatesAsDocumented | src/library/graphite_proxy/models/message.cpp:59-74 | the result tells whether a message was created if and only if the container was empty before or one was |
| Messages.NothingCreated | src/library/graphite_proxy/models/message.cpp:73 | for an empty text and a container that holds a message, nothing is created and the result is true |
| Messages.SmallValueIsLost | src/library/graphite_proxy/models/message.cpp:76-89 | a message with seven decimals that a line can bring is printed as another one |
| Messages.WireRoundTrip | src/library/graphite_proxy/models/message.cpp:28-89 | what a client writes for a sequence of messages is parsed back into the same sequence |
| Time.SegmentsCover | src/library/graphite_proxy/utils/time.cpp:30-50 | cutting a text at its unit letters loses nothing of it |
| Time.SegmentsUnique | src/library/graphite_proxy/utils/time.cpp:30-50 | a text written from number-unit segments is cut into these segments and no others |
| Time.ParseTime | src/library/graphite_proxy/utils/time.cpp:24-53 | for every text, well formed or not, the sum of its segments modulo 2^64, unreadable numbers counting as zero and the tail ignored |
| Time.TimeAdditive | src/library/graphite_proxy/utils/time.cpp:24-53 | durations add up over concatenation when the first text ends in a unit letter |
| Time.ResultsAdd | src/library/graphite_proxy/utils/time.cpp:24-53 | so do the computed results, modulo 2^64 |
| Time.TimeReordered | src/library/graphite_proxy/utils/time.cpp:34-48 | the order of the segments and the case of their unit letters do not matter |
| Time.PrintedTime | src/library/graphite_proxy/utils/time.cpp:24-53 | the text written for h hours, m minutes and s seconds, in unit letters of either case, means 3600h + 60m + s, and that is the result if and only if it is below 2^64 |
| Time.UnreadableIsIgnored | src/library/graphite_proxy/utils/time.cpp:55-66 | a segment whose number cannot be read adds nothing, wherever it stands |
| Time.BlankIsIgnored | src/library/graphite_proxy/utils/time.cpp:59 | with a blank before a number, `1h 30m` is an hour |
| Ordering.InOrderAscends | src/library/graphite_proxy/models/buffers/global_buffer.cpp:76-77 | the walk over a map of buffers goes up in lexicographic order of the names |
| Ordering.Lexicographic | src/library/graphite_proxy/models/buffers/global_buffer.cpp:76-77 | one name comes before another when it is a prefix of it or has the smaller character at the first difference |
| Queues.PushAllFits | src/library/graphite_proxy/models/buffers/global_buffer.cpp:58-59 | putting messages back into a buffer with room for all of them keeps every one, in order, and raises the mark only to the new size |
| Queues.PushAllCapped | src/library/graphite_proxy/models/buffers/message_buffer.cpp:24-39 | of too many messages a buffer that refuses new ones when full keeps the first ones, up to capacity |
| Queues.SelectPartition | src/library/graphite_proxy/models/buffers/message_buffer.cpp:81-88 | taking by time stamp splits a buffer without losing or doubling a message |
| MessageBuffers.LargestIsMaximum | src/library/graphite_proxy/models/buffers/message_buffer.cpp:41-44 | the high-water mark is the maximum of all sizes the buffer has had |
| MessageBuffers.MessageBuffer.Add | src/library/graphite_proxy/models/buffers/message_buffer.cpp:20-47 | a full buffer refuses the message or gives up its oldest one; the high-water mark stays the maximum of all sizes so far |
| MessageBuffers.MessageBuffer.Get | src/library/graphite_proxy/models/buffers/message_buffer.cpp:49-70 | moves the oldest messages in order: as many as asked, all for zero or too many |
| MessageBuffers.MessageBuffer.Rotate | src/library/graphite_proxy/models/buffers/message_buffer.cpp:83-87 | one turn takes the oldest message or puts it at the back |
| MessageBuffers.MessageBuffer.GetOlderThan | src/library/graphite_proxy/models/buffers/message_buffer.cpp:72-89 | one rotation takes exactly the messages up to the time stamp; taken and remaining ones keep their order |
| Clients.Client.Send | src/library/graphite_proxy/networking/client.cpp:33-77 | nothing to send is a failure; a success puts exactly the serialized messages on the wire, a failure nothing |
| Clients.BuildText | src/library/graphite_proxy/networking/client.cpp:63-66 | the payload is one serialized line per message |
| Store.AddAllKeepsWellFormed | src/library/graphite_proxy/models/buffers/global_buffer.cpp:22-70 | adding, message after message, keeps every sub-buffer named, within capacity and holding messages of its own metric only |
| Store.AddAllAppend | src/library/graphite_proxy/models/timer.cpp:29-30 | adding one batch after the other is adding them at once |
| Store.BufferedCount | src/library/graphite_proxy/models/buffers/global_buffer.cpp:72-78 | draining everything yields each buffered message as often as the sub-buffer of its metric holds it |
| Store.BufferedOfKind | src/library/graphite_proxy/models/buffers/global_buffer.cpp:72-78 | draining everything yields the messages of one metric in the order of their sub-buffer |
| Store.BufferedAscends | src/library/graphite_proxy/models/buffers/global_buffer.cpp:72-78 | draining everything goes from metric to metric in lexicographic order |
| Store.AddInFull | src/library/graphite_proxy/models/buffers/global_buffer.cpp:22-70 | what one add does to sub-buffers, attempts, wire and dropped messages, case by case: refused, pushed, oldest given up, flushed and delivered, flushed and kept |
| GlobalBuffers.GlobalBuffer.constructor | src/library/graphite_proxy/models/buffers/global_buffer.cpp:13-20 | starts without sub-buffers |
| GlobalBuffers.GlobalBuffer.BufferFor | src/library/graphite_proxy/models/buffers/global_buffer.cpp:35-38 | finds the sub-buffer of a metric or creates an empty one |
| GlobalBuffers.GlobalBuffer.SendContents | src/library/graphite_proxy/models/buffers/global_buffer.cpp:51-60 | a flush empties the sub-buffer when delivered and leaves it as it was, order and mark included, when not |
| GlobalBuffers.GlobalBuffer.Add | src/library/graphite_proxy/models/buffers/global_buffer.cpp:22-70 | refuses invalid messages; else pushes to the metric's sub-buffer and flushes it when it is now full; true exactly when the message was stored |
| GlobalBuffers.GlobalBuffer.GetAll | src/library/graphite_proxy/models/buffers/global_buffer.cpp:72-78 | moves everything buffered to the caller, metric by metric in map order, leaving empty sub-buffers |
| GlobalBuffers.GlobalBuffer.GetKind | src/library/graphite_proxy/models/buffers/global_buffer.cpp:80-95 | moves the messages of one metric, nothing for an unknown one; other sub-buffers are untouched |
| GlobalBuffers.GlobalBuffer.BuffersMaxMessages | src/library/graphite_proxy/models/buffers/global_buffer.cpp:97-113 | the maximum, over the live sub-buffers, of the largest size each has ever had |
| GlobalBuffers.GlobalBuffer.BufferSizes | src/library/graphite_proxy/models/buffers/global_buffer.cpp:115-127 | exactly the live sub-buffers with their sizes |
| GlobalBuffers.GlobalBuffer.Remove | src/library/graphite_proxy/models/buffers/global_buffer.cpp:129-133 | drops one sub-buffer with its contents and touches no other |
| Delivery.AddBlock | src/library/graphite_proxy/models/buffers/global_buffer.cpp:36-61 | adding messages of one metric one by one makes a send attempt only when they fill the sub-buffer up |
| Delivery.PutBack | src/library/graphite_proxy/models/timer.cpp:26-31 | the contents of a sub-buffer added to its empty place are kept whole, or delivered whole when they fill it and the link is up |
| Delivery.SettleAll | src/library/graphite_proxy/models/timer.cpp:26-31 | so it is for every sub-buffer when all are added back: nothing dropped, others untouched |
| Delivery.RoundSettles | src/library/graphite_proxy/models/timer.cpp:17-32 | for every link, a timer iteration delivers each sub-buffer whole and in order or leaves it as it was, marks included, and drops nothing |
| Delivery.RoundDeliversAll | src/library/graphite_proxy/models/timer.cpp:19-26 | an iteration that sends makes one attempt, puts everything buffered on the wire and leaves every sub-buffer empty |
| Delivery.EmptyRound | src/library/graphite_proxy/models/timer.cpp:19-31 | an iteration that finds nothing makes no attempt and changes nothing |
| Delivery.FailedRoundChangesNothing | src/library/graphite_proxy/models/timer.cpp:17-32 | an iteration in which every send fails, flushes during the put-back included, is the identity on the sub-buffers |
| Delivery.AddAllKeepsFullRule | src/library/graphite_proxy/models/buffers/global_buffer.cpp:41-61 | adding, message after message, keeps the rule that a sub-buffer is at capacity only if its latest flush failed |
| Timers.Timer.PutBack | src/library/graphite_proxy/models/timer.cpp:29-30 | the loop adds the messages back through the global buffer, one by one |
| Timers.Timer.Iteration | src/library/graphite_proxy/models/timer.cpp:17-32 | drains, tries to send, puts back on failure: the new state is the one `Delivery` is about |
| Interleaving.RunIsWellFormed | src/library/graphite_proxy/models/buffers/global_buffer.cpp:33-70 | under every interleaving each sub-buffer stays within capacity with messages of its own metric |
| Interleaving.StepBalances | src/library/graphite_proxy/models/buffers/global_buffer.cpp:33-78 | no single step of any thread creates or loses a message |
| Interleaving.Conservation | src/library/graphite_proxy/models/timer.cpp:17-32 | under every interleaving and all send outcomes: offered = sent + buffered + in the timer's hands + dropped + read, as multisets |
| Interleaving.NeverSentAndPending | src/library/graphite_proxy/models/timer.cpp:17-32 | a message offered once is never both delivered and still pending or dropped |
| Interleaving.FullOnlyAfterFailedFlush | src/library/graphite_proxy/models/buffers/global_buffer.cpp:41-61 | in either overflow mode and every interleaving, a sub-buffer is at capacity only if its latest flush failed |
| Interleaving.RoundInSteps | src/library/graphite_proxy/models/timer.cpp:17-32 | the steps of the timer taken in a row are one sequential iteration |
| Arrival.ArrivalOrder | src/library/graphite_proxy/models/buffers/message_buffer.cpp:24-30 | in drop-oldest mode, as long as no message of a metric overtakes, whatever happens to other metrics and to the sends: its sub-buffer, with what the timer puts back behind it, is the tail of what was offered, and deliveries follow the order of arrival |
| Arrival.ArrivalOrderExactly | src/library/graphite_proxy/models/timer.cpp:17-32 | when no message of a metric is offered twice, it is in order of arrival at every moment of a run if and only if none overtakes |
| Arrival.FlushDelivers | src/library/graphite_proxy/models/buffers/global_buffer.cpp:41-55 | adding delivers something if and only if the sub-buffer accepts the message, it fills it up, and the link is up |
| Arrival.OvertakingBreaksOrder | src/library/graphite_proxy/models/timer.cpp:26-31 | in drop-oldest mode, for a metric that is in order and of which no message is offered twice, each step that overtakes breaks the order |
| Arrival.DeliveryOrder | src/library/graphite_proxy/models/buffers/message_buffer.cpp:24-36 | in either overflow mode, as long as none of a metric overtakes, what was delivered of it and what is still to be delivered come in the order they were offered in |
| Arrival.GoodTimeSuffices | src/library/graphite_proxy/models/timer.cpp:17-32 | nothing overtakes when no message of the metric is offered while the timer has some of it in hand |
| Arrival.LostByFailure | src/library/graphite_proxy/models/timer.cpp:26-31 | a run in which a failed send puts an older message back behind a newer one |
| Arrival.LostByFlush | src/library/graphite_proxy/models/buffers/global_buffer.cpp:46-55 | a run in which every send succeeds and a flush delivers newer messages before an older one |
| Cleaners.TrailingIsRun | src/library/graphite_proxy/models/buffers/cleaner.cpp:48-84 | what a counter stands for is the longest run of empty observations at the end of the history |
| Cleaners.Cleaner.constructor | src/library/graphite_proxy/models/buffers/cleaner.cpp:7-15 | the limit is at least two |
| Cleaners.Cleaner.Count | src/library/graphite_proxy/models/buffers/cleaner.cpp:42-86 | counters stay equal to the current runs of empty observations, below the limit, absent for no run; expired exactly when the run reaches the limit |
| Cleaners.Cleaner.Clean | src/library/graphite_proxy/models/buffers/cleaner.cpp:42-86 | removes the sub-buffer exactly when its run of empty observations reaches the limit, and loses no message |
| Cleaners.Cleaner.Iteration | src/library/graphite_proxy/models/buffers/cleaner.cpp:17-40 | of all sub-buffers exactly those empty for the limit-th time in a row go; the others are untouched, nothing is lost, counters name live sub-buffers only |
| Cleaners.Cleaner.StaysValidOverAdds | src/library/graphite_proxy/models/buffers/global_buffer.cpp:22-70 | adds between two looks, by whomever, leave the counters right |
| Cleaners.Cleaner.StaysValidOverRound | src/library/graphite_proxy/models/timer.cpp:17-32 | so does an iteration of the timer |
| Cleaners.WatchRefinesHistory | src/library/graphite_proxy/models/buffers/cleaner.cpp:48-84 | over every sequence of observed sizes the counting rule gives up at the first run reaching the limit and else holds the length of the current run |
| Aggregates.Sum | src/library/graphite_proxy/models/maths/pipeline.cpp:492-504 | the loop computes the total of all values |
| Aggregates.Average | src/library/graphite_proxy/models/maths/pipeline.cpp:506-520 | the loop computes the mean |
| Aggregates.ComputeVariance | src/library/graphite_proxy/models/maths/pipeline.cpp:522-541 | the loop computes the mean squared distance from the mean |
| Aggregates.Deviation | src/library/graphite_proxy/models/maths/pipeline.cpp:543-552 | the square root of the variance: with a square root at hand, a non-negative number whose square is the variance |
| Aggregates.Maximum | src/library/graphite_proxy/models/maths/pipeline.cpp:554-569 | the loop finds the greatest value |
| Aggregates.Minimum | src/library/graphite_proxy/models/maths/pipeline.cpp:571-586 | the loop finds the least value |
| Aggregates.ComputeMedian | src/library/graphite_proxy/models/maths/pipeline.cpp:588-607 | the middle value of the sorted values, or the mean of the two middle ones |
| Aggregates.ComputeTiles | src/library/graphite_proxy/models/maths/pipeline.cpp:609-629 | the scaled share of values below the threshold, with half of the equal ones unless only strictly lower ones count |
| Aggregates.GreatestIsGreatest | src/library/graphite_proxy/models/maths/pipeline.cpp:559-566 | the maximum is one of the values and no value exceeds it |
| Aggregates.LeastIsLeast | src/library/graphite_proxy/models/maths/pipeline.cpp:576-583 | the minimum is one of the values and no value is below it |
| Ranks.MedianByRank | src/library/graphite_proxy/models/maths/pipeline.cpp:588-607 | by counting: when at most (n-1)/2 of n values lie below one value and more lie no higher, and n/2 likewise for another, the median is half their sum |
| Ranks.MiddleValues | src/library/graphite_proxy/models/maths/pipeline.cpp:592-604 | there always are two such values among the given ones, one and the same for an odd number |
| Ranks.MedianMoves | src/library/graphite_proxy/models/maths/pipeline.cpp:588-607 | the median moves along when a constant is added to all values |
| Ranks.MedianMirrors | src/library/graphite_proxy/models/maths/pipeline.cpp:588-607 | the median of the negated values is the negated median |
| Ranks.StrictTiles | src/library/graphite_proxy/models/maths/pipeline.cpp:617-626 | in strict form the result times the number of values is the multiplicator times how many of them lie below the threshold |
| Ranks.MidRankTiles | src/library/graphite_proxy/models/maths/pipeline.cpp:617-626 | in mid-rank form half of the number of values equal to the threshold is added to that |
| AggregateLaws.SortedUnique | src/library/graphite_proxy/models/maths/pipeline.cpp:602 | there is only one way to sort, so the median does not depend on how the library sorts |
| AggregateLaws.AggregatesReordered | src/library/graphite_proxy/models/maths/pipeline.cpp:492-629 | no aggregation depends on the order of the messages |
| AggregateLaws.MeanMinimisesSquares | src/library/graphite_proxy/models/maths/pipeline.cpp:506-520 | the mean minimises the sum of squared distances over all centres |
| AggregateLaws.VarianceByMoments | src/library/graphite_proxy/models/maths/pipeline.cpp:522-541 | the variance is the mean of the squares minus the square of the mean |
| AggregateLaws.VarianceZero | src/library/graphite_proxy/models/maths/pipeline.cpp:522-541 | the variance is never negative, and zero if and only if all values are equal |
| AggregateLaws.VarianceBound | src/library/graphite_proxy/models/maths/pipeline.cpp:522-541 | the variance is at most (max - mean)(mean - min) |
| AggregateLaws.CentresWithinRange | src/library/graphite_proxy/models/maths/pipeline.cpp:492-607 | mean and median lie between minimum and maximum |
| AggregateLaws.MedianMinimisesGaps | src/library/graphite_proxy/models/maths/pipeline.cpp:588-607 | the median minimises the sum of absolute distances over all centres |
| AggregateLaws.MedianNearMean | src/library/graphite_proxy/models/maths/pipeline.cpp:506-607 | (mean - median)^2 is at most the variance |
| AggregateLaws.DeviationLaws | src/library/graphite_proxy/models/maths/pipeline.cpp:543-552 | mean and median are no further apart than the deviation, which is zero exactly for equal values |
| AggregateLaws.TilesRange | src/library/graphite_proxy/models/maths/pipeline.cpp:609-629 | for a multiplicator k >= 0 the result lies in [0, k], and the strict form never exceeds the mid-rank form |
| AggregateLaws.TilesMonotone | src/library/graphite_proxy/models/maths/pipeline.cpp:609-629 | the result does not go down when the threshold goes up |
| AggregateLaws.TilesMirror | src/library/graphite_proxy/models/maths/pipeline.cpp:609-629 | in mid-rank form the tiles of the values at v and of the negated values at -v add up to the multiplicator |
| Computations.TypeRoundTrip | src/library/graphite_proxy/models/maths/math_computation.cpp:87-128 | a computation type is read back from its name in any letter case |
| Computations.TypeNames | src/library/graphite_proxy/models/maths/math_computation.cpp:114-128 | different types have different names, none of which breaks a saved line |
| Computations.NamesAre | src/library/graphite_proxy/models/maths/math_computation.cpp:87-128 | the nine names, and that case does not matter when one is read |
| Computations.MathComputation.IncrementLastComputeTime | src/library/graphite_proxy/models/maths/math_computation.cpp:60-63 | moves the last compute time on by one window and changes nothing else |
| Computations.MathComputation.SetLastComputeTime | src/library/graphite_proxy/models/maths/math_computation.cpp:65-68 | sets the last compute time and changes nothing else |
| Windows.WindowsPartition | src/library/graphite_proxy/models/maths/pipeline.cpp:286-308 | the catch-up loop terminates; batch 1 is exactly the messages up to L+v, batch i those in (L+(i-1)v, L+iv], in order of arrival and never empty; what remains is exactly what is stamped after the last window; no window ends after now; when it stops |
| Windows.WindowsByTime | src/library/graphite_proxy/models/maths/pipeline.cpp:286-308 | by time stamps, in seconds: which messages each batch holds, which remain, that each batch is of a window that is over, and where the loop stops |
| Windows.LaterWindow | src/library/graphite_proxy/models/maths/pipeline.cpp:286-308 | the windows of what the first window leaves are the later windows of the whole buffer |
| Runs.IterationConserves | src/library/graphite_proxy/models/maths/pipeline.cpp:248-271 | an iteration computes or keeps each buffered message, exactly once |
| Runs.RunsOnCount | src/library/graphite_proxy/models/maths/pipeline.cpp:248-258 | a computation on count takes exactly its number of oldest messages as soon as there are so many, and nothing before |
| Runs.RunsOnTime | src/library/graphite_proxy/models/maths/pipeline.cpp:259-271 | a computation on time does nothing before its next window is over, then takes its windows |
| Runs.RunConserves | src/library/graphite_proxy/models/maths/pipeline.cpp:229-308 | over every run each accepted message has been computed once or is still buffered |
| Runs.SumConservation | src/library/graphite_proxy/models/maths/pipeline.cpp:492-504 | for every operation, on count or on time: the sums of the batches and of what is buffered add up to everything accepted |
| Runs.CountInBlocks | src/library/graphite_proxy/models/maths/pipeline.cpp:248-284 | over every run of a count operation the accepted messages are the computed blocks, each of exactly the configured size, followed by the buffer |
| Runs.TickInTime | src/library/graphite_proxy/models/maths/pipeline.cpp:259-308 | after an iteration the last compute time is at most one window behind, never ahead, and never moved back |
| Runs.BoundedStaleness | src/library/graphite_proxy/models/maths/pipeline.cpp:229-308 | over every run with a clock that does not go back: last <= now <= last + v after each iteration, and no message from the future is ever computed |
| Runs.DueIsComputed | src/library/graphite_proxy/models/maths/pipeline.cpp:259-308 | whatever is due but still buffered after an iteration is all computed, in one batch, by the first iteration one window later |
| Pipelines.SumIsConserved | src/library/graphite_proxy/models/maths/pipeline.cpp:276-308 | over every run of a sum, on count or on time: the results handed to the global buffer and what is still buffered add up to everything accepted |
| Evaluation.OneResult | src/library/graphite_proxy/models/maths/pipeline.cpp:421-490 | at most one message comes out, always one unless the type is tiles or unknown; it carries the metric and the time |
| Evaluation.ExtremesYielded | src/library/graphite_proxy/models/maths/pipeline.cpp:439-446 | for max the value is among those of the messages and none is greater; for min none is less |
| Evaluation.AverageYielded | src/library/graphite_proxy/models/maths/pipeline.cpp:431-438 | for sum the value is the total, for average the total is the value times the number of messages |
| Evaluation.MedianYielded | src/library/graphite_proxy/models/maths/pipeline.cpp:447-450 | for median the value is half the sum of the two messages in the middle by rank |
| Evaluation.SpreadYielded | src/library/graphite_proxy/models/maths/pipeline.cpp:451-458 | for variance the value is the mean square without the squared mean; for deviation it is a non-negative root of that |
| Evaluation.TilesYielded | src/library/graphite_proxy/models/maths/pipeline.cpp:459-482 | for tiles, how each of the three options enters: which messages count, fully or by half, and the factor |
| Evaluation.TilesRefused | src/library/graphite_proxy/models/maths/pipeline.cpp:463-479 | tiles with an option that is missing or unreadable yield nothing |
| Pipelines.MathsPipeline.Evaluate | src/library/graphite_proxy/models/maths/pipeline.cpp:421-486 | each type runs its own aggregation: for sum, average, max and min its contract says what the value is in terms of the messages, for the other types the laws of `Evaluation` do; unknown types yield nothing |
| Pipelines.MathsPipeline.Compute | src/library/graphite_proxy/models/maths/pipeline.cpp:421-490 | the result goes through the global buffer, which may flush |
| Pipelines.MathsPipeline.ComputeOnCount | src/library/graphite_proxy/models/maths/pipeline.cpp:276-284 | takes one block and hands its result to the global buffer |
| Pipelines.MathsPipeline.ComputeWindow | src/library/graphite_proxy/models/maths/pipeline.cpp:289-307 | one turn of the loop: an empty window jumps to now and stops, else the window is computed and the time moves on by one window |
| Pipelines.MathsPipeline.ComputeOnTime | src/library/graphite_proxy/models/maths/pipeline.cpp:286-308 | the loop leaves buffer and last compute time as the sweep of `Windows` does, and its results reach the global buffer in order |
| Pipelines.MathsPipeline.IterateOperation | src/library/graphite_proxy/models/maths/pipeline.cpp:245-271 | an operation runs exactly when it is due, else nothing changes |
| Pipelines.MathsPipeline.IterateMetric | src/library/graphite_proxy/models/maths/pipeline.cpp:240-272 | the operations of one metric run in order, each on its own buffer |
| Pipelines.MathsPipeline.Iteration | src/library/graphite_proxy/models/maths/pipeline.cpp:229-274 | every operation of every metric runs once; results reach the global buffer in map order; nothing else changes |
| Pipelines.MathsPipeline.IsWanted | src/library/graphite_proxy/models/maths/pipeline.cpp:407-419 | none if and only if no filter matches; else a category with a matching filter and none matching before it |
| Pipelines.WantedIsFirst | src/library/graphite_proxy/models/maths/pipeline.cpp:411-418 | there is a category if and only if some filter matches, and then it is one that no matching category precedes |
| Pipelines.FirstOfType | src/library/graphite_proxy/models/maths/pipeline.cpp:370-383 | the operation a typed message is for is the first of that type |
| Pipelines.MathsPipeline.OperationsFor | src/library/graphite_proxy/models/maths/pipeline.cpp:343-368 | a new metric gets one empty operation per computation of its category, a known one keeps its operations |
| Pipelines.MathsPipeline.AddToOperations | src/library/graphite_proxy/models/maths/pipeline.cpp:370-393 | without a type every operation gets the message, with one only the first of that type |
| Pipelines.MathsPipeline.Add | src/library/graphite_proxy/models/maths/pipeline.cpp:322-396 | a wanted message reaches the operations of its metric and no other; an unwanted one changes nothing; the result tells which |
| PipelineRuns.AcceptOne | src/library/graphite_proxy/models/maths/pipeline.cpp:322-396 | adding keeps every metric with the operations of its category, holding its own messages within capacity, and creates operations for a wanted metric only |
| PipelineRuns.AcceptAt | src/library/graphite_proxy/models/maths/pipeline.cpp:322-396 | a message changes exactly the operations it is for, by joining their buffers |
| PipelineRuns.RunIsConfigured | src/library/graphite_proxy/models/maths/pipeline.cpp:229-396 | in every state a pipeline can reach, a metric has the operations of its category, holding its own messages within capacity |
| PipelineRuns.RunProjects | src/library/graphite_proxy/models/maths/pipeline.cpp:229-396 | the state of an operation in a run of the pipeline is what its own run, from its creation on, makes of it |
| PipelineRuns.PipelineStaysInTime | src/library/graphite_proxy/models/maths/pipeline.cpp:229-308 | over every run of the pipeline under a clock that does not go back: after an iteration no operation on time lags more than one window behind, and none has computed a message from the future |
| PipelineRuns.PipelineComputesDue | src/library/graphite_proxy/models/maths/pipeline.cpp:259-308 | in every run of the pipeline, what was due for an operation that is up to date but is still buffered is all computed, in one batch, by the first iteration one window later |
| PipelineRuns.PipelineCountsInBlocks | src/library/graphite_proxy/models/maths/pipeline.cpp:248-284 | over every run of the pipeline an operation on count has computed what it accepted in blocks of exactly its size, and holds the rest |
| PipelineRuns.ResultsOfMetric | src/library/graphite_proxy/models/maths/pipeline.cpp:229-274 | the results of one metric among those of an iteration are what its operations hand out, in their order |
| PipelineRuns.PipelineConservesSums | src/library/graphite_proxy/models/maths/pipeline.cpp:276-308 | over every run of the pipeline, for a metric whose category only sums: the values handed to the global buffer for it and those its operations still hold add up to those they accepted |
| PipelineRuns.ResultsAreWanted | src/library/graphite_proxy/models/maths/pipeline.cpp:421-490 | every result handed to the global buffer carries the name of a metric some category wants |
| SaveLoad.ReadOne | src/library/graphite_proxy/models/router.cpp:179-184 | a line shorter than the line buffer is read as it was written |
| SaveLoad.LineLimit | src/library/graphite_proxy/models/router.cpp:179-184 | a line of up to 2047 characters is read whole |
| SaveLoad.OverlongLine | src/library/graphite_proxy/models/router.cpp:179-184 | of a longer line the first 2047 characters are read, and nothing after it |
| SaveLoad.EmptyLine | src/library/graphite_proxy/models/router.cpp:184-185 | an empty line is skipped |
| SaveLoad.LastLine | src/library/graphite_proxy/models/router.cpp:180-183 | the last line needs no line break |
| SaveLoad.NullInLine | src/library/graphite_proxy/models/router.cpp:183 | a line ends at its first null character |
| SaveLoad.PassThroughLines | src/library/graphite_proxy/models/router.cpp:135-146 | the lines read from a pass-through file are those written, in order |
| SaveLoad.LinesAreRouted | src/library/graphite_proxy/models/router.cpp:203-204 | loading routes anew: wanted messages go to all operations of their metric, only the others to the global buffer, in order |
| SaveLoad.PassThroughSettles | src/library/graphite_proxy/models/router.cpp:164-214 | each sub-buffer no category wants comes back whole and in order, or was full and is sent whole; nothing is dropped |
| SaveLoad.PassThroughComesBack | src/library/graphite_proxy/models/router.cpp:58-214 | every sub-buffer comes back, or was full and is sent whole, if and only if no category wants any of the messages |
| MathsSave.EntryReadsBackRounded | src/library/graphite_proxy/models/router.cpp:188-201 | a saved maths line is read as its message, the value rounded to six decimals, and computation type |
| MathsSave.EntryReadsBack | src/library/graphite_proxy/models/router.cpp:188-201 | exactly so when the value has no more than six decimals |
| MathsSave.MathsLines | src/library/graphite_proxy/models/router.cpp:135-146 | the lines read from a maths file are those written, in order |
| MathsSave.LoadedOperation | src/library/graphite_proxy/models/router.cpp:187-201 | loading gives each operation the messages meant for it, in file order, and changes nothing else of it |
| MathsSave.LoadedMetrics | src/library/graphite_proxy/models/router.cpp:187-201 | loading creates operations for no metric but those of the loaded messages |
| MathsSave.GivenOperation | src/library/graphite_proxy/models/maths/pipeline.cpp:384-393 | messages that come without a type go to every operation of their metric, in order |
| MathsSave.LoadedTogether | src/library/graphite_proxy/models/router.cpp:152-162 | per operation: the wanted pass-through messages of its metric, then what was saved for it, up to capacity |
| MathsSave.OperationComesBack | src/library/graphite_proxy/models/router.cpp:73-112 | an operation gets back the messages saved for all operations of which it is the first of the type, as many as fit |
| MathsSave.OwnMessagesComeBack | src/library/graphite_proxy/models/router.cpp:73-112 | that is its own messages when nothing on its metric is shadowed, and none when it is shadowed itself |
| MathsSave.MathsComeBack | src/library/graphite_proxy/models/router.cpp:73-112 | all messages come back, same metric, operation and order, if and only if no non-empty operation stands behind another of its type; in any case the operations are those there were, with the same computations, and no others |
| MathsSave.DistinctTypesComeBack | src/library/graphite_proxy/models/maths/pipeline.cpp:356-363 | with distinct types in each category that condition always holds |
| Routers.Router.RouteMessage | src/library/graphite_proxy/models/router.cpp:32-56 | a valid message goes to the pipeline when it is wanted there, else to the global buffer; anything else is refused and changes nothing |
| Routers.Router.RouteText | src/library/graphite_proxy/models/router.cpp:24-30 | accepts exactly the lines that hold a message |
| Routers.Router.DrainOperation | src/library/graphite_proxy/models/router.cpp:84-97 | takes everything pending for an operation, with its type once per message |
| Routers.Router.DrainMaths | src/library/graphite_proxy/models/router.cpp:78-100 | takes everything pending in the pipeline in map order, with the right types beside it, leaving empty buffers |
| Routers.PlainText | src/library/graphite_proxy/models/router.cpp:135-146 | a pass-through file holds what the client would send |
| Routers.SuffixedText | src/library/graphite_proxy/models/router.cpp:135-146 | a maths file holds each message with its computation type |
| Routers.Router.SerializeMessages | src/library/graphite_proxy/models/router.cpp:117-150 | writes one line per message, with its suffix if there is one; nothing to write leaves the file alone; -1 when the file cannot be written |
| Routers.Router.Serialize | src/library/graphite_proxy/models/router.cpp:58-115 | both files hold everything that was pending, both buffers are empty, and how the results add up |
| Routers.SavesAsDocumented | src/library/graphite_proxy/models/router.cpp:58-115 | saving returns the number of saved messages, or -1 when either file fails, if and only if nothing fails, or the pass-through file does and nothing is written to the other |
| Routers.SaveReports | src/library/graphite_proxy/models/router.cpp:58-115 | what saving returns for each combination of files that cannot be written, and that a file is touched only when something was written to it |
| Routers.Router.LoadMathLine | src/library/graphite_proxy/models/router.cpp:187-202 | a line of four parts is given to the computation named last; it counts when it holds a message a category wants |
| Routers.Router.LoadSegments | src/library/graphite_proxy/models/router.cpp:177-206 | the loop loads exactly the lines the file yields and counts those that were accepted; a line that is too long ends it |
| Routers.Router.LoadMessages | src/library/graphite_proxy/models/router.cpp:164-214 | loads the file and removes it; -1 and no change when there is none |
| Routers.Router.Load | src/library/graphite_proxy/models/router.cpp:152-162 | both files in turn, the maths file only with a pipeline |
| Routers.LoadsAsDocumented | src/library/graphite_proxy/models/router.cpp:152-162 | loading returns the number of loaded messages, or -1 when a file is missing, if and only if both are there, or one is missing and nothing is loaded from the other |
| Routers.LoadReports | src/library/graphite_proxy/models/router.cpp:152-162 | what loading returns for each combination of missing files |
| Routers.MessagesCount | src/library/graphite_proxy/models/router.cpp:204-205 | every saved pass-through message counts as loaded |
| Routers.EntriesCount | src/library/graphite_proxy/models/router.cpp:201-202 | of the saved maths messages exactly those count whose metric some filter matches |
| Routers.OtherLinesDoNotCount | src/library/graphite_proxy/models/router.cpp:193-205 | a line that holds no message, or a maths line without four parts, does not count |
| Restarts.FilesAreRead | src/library/graphite_proxy/models/router.cpp:58-214 | what is read from the files is what was written to them, or nothing when there was nothing to write |
| Restarts.ReloadedOperation | src/library/graphite_proxy/models/router.cpp:58-214 | after saving and loading whatever was pending, an operation holds the messages of its metric that were pending for the server, then those saved for it, up to capacity |
| Restarts.ProxyComesBack | src/library/graphite_proxy/models/router.cpp:58-214 | nothing is dropped, and each sub-buffer is held or sent whole and each operation is as it was, if and only if no category wants what was pending for the server and no operation is shadowed |
| Restarts.TwoSumsLose | src/library/graphite_proxy/models/router.cpp:73-112 | one message and two sums on its metric: after a restart the first sum has it twice and the second not at all |
| Restarts.SumIsSummedAgain | src/library/graphite_proxy/models/router.cpp:164-214 | a sum that waits for the server waits for another sum after a restart |
| Restarts.SaveMisreports | src/library/graphite_proxy/models/router.cpp:58-115 | a state in which saving returns 1 although the pass-through file failed and two maths messages were saved |
| Restarts.LoadMisreports | src/library/graphite_proxy/models/router.cpp:152-162 | loading without any files returns -2 |
| RoundedRestarts.ReloadedAsRounded | src/library/graphite_proxy/models/router.cpp:58-214 | loading what a proxy saved is loading what it would have saved with every value rounded to six decimals |
| RoundedRestarts.RoundedOperation | src/library/graphite_proxy/models/router.cpp:58-214 | whatever the values, after a restart an operation holds, rounded, the messages of its metric that were pending for the server, then those saved for it, up to capacity |
| RoundedRestarts.RoundedProxyComesBack | src/library/graphite_proxy/models/router.cpp:58-214 | whatever the values, everything comes back rounded if and only if no category wants what was pending for the server and no operation is shadowed |

## Left out

- Cleaners.Cleaner.Iteration: the sizes are read and the sub-buffers removed in one step; in the program
  a message added in between is lost with the sub-buffer, which `Interleaving` has as its `Erase` step.
- Interleaving.Conservation: reading one metric (`GlobalBuffer::get` with a name) is one step, though the
  program releases the lock of the map before it empties the sub-buffer.
- Pipelines.MathsPipeline.Add: creating the operations of a metric without holding the pipeline's lock is
  taken as atomic, as is a whole pipeline iteration.
- Pipelines.MathsPipeline.Iteration: the clock is read once and also stamps the results; the program
  reads it again for each result.
- Pipelines.MathsPipeline.Evaluate: square root and the matching of a filter are parameters; the flag of
  tiles is read as `true`, `false`, `1` or `0` without sign or leading zeros.
- Runs.BoundedStaleness: times are unbounded naturals, so last compute time plus window does not wrap.
- Aggregates.ComputeMedian: values are exact reals; rounding, overflow, infinities, NaN and negative zero
  of doubles are not modelled, here and in the other aggregations.
- Messages.LineReadsBack: values are read in plain decimal notation; exponents, `inf` and `nan`, which
  `lexical_cast` also accepts, are not part of this model, nor is white space that depends on a locale.
- Clients.Client.Send: a send fails or succeeds as a whole; whether the client could start, the
  connection and the exceptions a broken socket raises are folded into the outcome.
- Routers.Router.LoadMathLine: a maths line that holds no message and names no type makes the program use a
  null message; here it is skipped. Saving never writes such a line.
- Routers.Router.LoadMessages: every file that exists can be read and removed.
- Routers.Router.Serialize: messages in the timer's hands at that moment are not saved, and last compute
  times are not saved at all, as in the program.
- MessageBuffers.MessageBuffer.constructor: capacity is at least one, since dropping the oldest message of
  an empty list is undefined in the program; the limit of `std::list` is not modelled.
- Null messages, the cached text of a message and the time it was received.
- Loading categories from XML, reloading them, and removing metrics from the pipeline, which nothing
  calls.
- The pipeline's own `get` and high-water mark: the same loops as in the global buffer.
- Threads, sleeping, statistics, logging, the servers and requests, the command line.
