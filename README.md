# csharp-utils in Dafny

A Dafny model of the sequential core of the Csharp.Utilities library, with proofs about it.

- **ControllableProcess.** This wraps a child process. Reader threads assemble stdout and stderr into lines, character by character, and queue the lines. An input thread writes queued strings to stdin. `Stop` and `Dispose` shut everything down. The model is one single-threaded class:
  - `LineAssembly` describes one reader step as a function on values.
  - `ConsoleTools` holds the class. Its methods make those steps on its fields, and it has the queue helpers, one round of the input worker, and `Stop` and `Dispose`.
- **EnumerableExtensions.** These are sequence utilities. `Repeat`, both `Count` overloads, `GetRange`, both `For` overloads and `AddRange` are loops over counters and enumerators in the source. Each becomes a method with that loop, proved against a closed form. Code written as one expression becomes a function. `Invert` is the exception: its source is a `while (e.MoveNext()) yield return !e.Current;` loop, and the model is a recursive function that negates element by element.
- **Either, EitherExtensions, EitherUtils.** These are a two-sided sum type and its combinators. Left is the value that flows on and Right the one that short-circuits.
- **DefaultValueDictionary.** A dictionary whose indexer returns a default value for a missing key.

The process model keeps the source's behaviour as written, including these quirks:
- The `CurrentLine` of every character event is the stdout buffer as it was before the character was appended, even on the stderr reader.
- On `'\n'`, any reader trims and queues the stdout buffer, then clears it. On the stderr reader this means the error queue receives the stdout line and the stderr buffer is never cleared.
- `Stop(input)` uses 100 ms for every timeout.

What the environment would answer comes in as parameters:
- the characters of a stream;
- when another thread raises the stop flag;
- whether the input thread is alive;
- whether the process exited, and its exit code;
- whether `Kill` succeeds.

What the object does to threads and the process is recorded in ghost logs: raised events, stdin writes, sleeps, soft stops, waits and kills.

A negative count to `Enumerate` is a failure, not an empty sequence. The code calls `Enumerable.Range(0, val)`, which throws `ArgumentOutOfRangeException` for a negative count as soon as it is called. Its doc comment says only that negative integers do not work.

Files: `wrappers.dfy` (Option, Result), `line_assembly.dfy`, `controllable_process.dfy`, `enumerable_extensions.dfy`, `either.dfy`, `either_extensions.dfy`, `either_utils.dfy`, `default_value_dictionary.dfy`.

## Model

| member | source | states |
|---|---|---|
| LineAssembly.TrimEnd | Csharp.Utilities/ConsoleTools/ControllableProcess.cs:346 | The result is a prefix of the line and does not end in white space, and every character removed is .NET white space. |
| LineAssembly.IsWhiteSpace | Csharp.Utilities/ConsoleTools/ControllableProcess.cs:346 | The white space `TrimEnd()` removes: blank, tab, line feed and carriage return are white space, and ASCII letters and digits are not. |
| LineAssembly.TrimEndDropsNewline | Csharp.Utilities/ConsoleTools/ControllableProcess.cs:344-346 | Trimming the buffer with the just-appended `'\n'` gives the buffer before it, trimmed. The terminating `'\n'` never reaches a queue. |
| LineAssembly.Step | Csharp.Utilities/ConsoleTools/ControllableProcess.cs:318-357 | A stdout buffer that holds no `'\n'` still holds none after any step, for either reader. |
| LineAssembly.StepStandardOut | Csharp.Utilities/ConsoleTools/ControllableProcess.cs:319-355 | On stdout, a character is appended and its event carries the line before the append. On `'\n'` the queue receives that line trimmed, the buffer becomes empty, and a char event and then a line event are raised. Stderr state is untouched. |
| LineAssembly.StepStandardError | Csharp.Utilities/ConsoleTools/ControllableProcess.cs:319-355 | The quirk as written. On stderr, each character is appended to the error buffer, and its event carries the stdout buffer. A `'\n'` then queues the trimmed stdout buffer into the error queue and clears the stdout buffer, while the error buffer keeps the `'\n'`. |
| LineAssembly.RunStandardErrorBuffer | Csharp.Utilities/ConsoleTools/ControllableProcess.cs:316-365 | Over a stderr run, the error buffer receives every character read and is never cleared. The stdout queue is untouched. |
| LineAssembly.RunStandardErrorQueue | Csharp.Utilities/ConsoleTools/ControllableProcess.cs:316-365 | Over a stderr run with N line breaks, the error queue grows by N lines. The first is the trimmed stdout buffer and the rest are empty, so no stderr text reaches the queue while stdout is idle. The stdout buffer ends empty once a `'\n'` was read. |
| LineAssembly.StandardErrorQueueExample | Csharp.Utilities/ConsoleTools/ControllableProcess.cs:316-365 | With `"x "` pending on stdout, the stderr stream `"e1\ne2\n"` queues `["x", ""]`. |
| LineAssembly.StepStandardOutEvents | Csharp.Utilities/ConsoleTools/ControllableProcess.cs:319-355 | One stdout step adds its character to the char events and, on `'\n'`, the pre-append line to the line events. It raises no stderr event. |
| LineAssembly.StepStandardOutCharEvents | Csharp.Utilities/ConsoleTools/ControllableProcess.cs:321-326 | One stdout step adds its character to the stdout char events and nothing to the stderr char events. |
| LineAssembly.StepStandardOutLineEvents | Csharp.Utilities/ConsoleTools/ControllableProcess.cs:344-351 | One stdout step adds, on `'\n'` only, the pre-append line to the stdout line events, and nothing to the stderr line events. |
| LineAssembly.RunSnoc | Csharp.Utilities/ConsoleTools/ControllableProcess.cs:316-365 | Running the loop over one more character is one more step on the earlier result. |
| LineAssembly.Run | Csharp.Utilities/ConsoleTools/ControllableProcess.cs:316-365 | The reader loop, one step per character. A stdout buffer without a `'\n'` keeps none after any run. |
| LineAssembly.SplitJoinLines | Csharp.Utilities/ConsoleTools/ControllableProcess.cs:344-347 | Cutting a stream at its line breaks gives segments that join back, with `'\n'` between them, to the stream. |
| LineAssembly.SplitHasNoNewline | Csharp.Utilities/ConsoleTools/ControllableProcess.cs:344-347 | No segment contains a `'\n'`. |
| LineAssembly.CompletedIsSplit | Csharp.Utilities/ConsoleTools/ControllableProcess.cs:316-365 | A reader starting with `line` in its buffer completes the segments before each `'\n'`, with `line` in front of the first, and keeps the last segment buffered. |
| LineAssembly.CompletedAsSplit | Csharp.Utilities/ConsoleTools/ControllableProcess.cs:316-365 | The completed lines are the segments before each `'\n'`, with the old buffer in front of the first. |
| LineAssembly.PendingAsSplit | Csharp.Utilities/ConsoleTools/ControllableProcess.cs:316-365 | The buffer ends holding the segment after the last `'\n'`, with the old buffer in front if there was no `'\n'`. |
| LineAssembly.RunStandardOut | Csharp.Utilities/ConsoleTools/ControllableProcess.cs:316-365 | For a stdout run over any characters, the queue grows by the completed lines trimmed, in order. The line events grow by the same lines untrimmed. The char events grow by exactly the characters read. Stderr state and events are unchanged. |
| LineAssembly.RunStandardOutQueue | Csharp.Utilities/ConsoleTools/ControllableProcess.cs:344-347 | Over a stdout run, the output queue grows by the completed lines, trimmed, in order. |
| LineAssembly.RunStandardOutPending | Csharp.Utilities/ConsoleTools/ControllableProcess.cs:323-347 | After a stdout run, the buffer holds what the reader read since the last `'\n'`. |
| LineAssembly.RunStandardOutKeepsStandardError | Csharp.Utilities/ConsoleTools/ControllableProcess.cs:316-357 | A stdout run leaves the stderr buffer and the error queue as they were. |
| LineAssembly.RunStandardOutCharEvents | Csharp.Utilities/ConsoleTools/ControllableProcess.cs:316-327 | A stdout run raises one char event per character read, in order. |
| LineAssembly.RunStandardOutLineEvents | Csharp.Utilities/ConsoleTools/ControllableProcess.cs:344-351 | A stdout run raises one line event per completed line, carrying the untrimmed line, in order. |
| LineAssembly.RunStandardOutNoErrorEvents | Csharp.Utilities/ConsoleTools/ControllableProcess.cs:316-357 | A stdout run raises no stderr event. |
| LineAssembly.StandardOutLines | Csharp.Utilities/ConsoleTools/ControllableProcess.cs:300-365 | A stdout run from an empty buffer over a stream with N line breaks queues exactly N lines and raises exactly N line events. The k-th queued line is the k-th `'\n'`-terminated segment trimmed, and the unterminated tail stays in the buffer. |
| LineAssembly.TrimAllAt | Csharp.Utilities/ConsoleTools/ControllableProcess.cs:346 | Trimming a list of lines trims each one in place. |
| ConsoleTools.ControllableProcess.constructor | Csharp.Utilities/ConsoleTools/ControllableProcess.cs:58-78 | Three fresh, distinct, empty queues. Nothing is stopped or disposed, and the start parameters are kept. |
| ConsoleTools.LineQueue.constructor | Csharp.Utilities/ConsoleTools/ControllableProcess.cs:60-62 | Each of the three `Queue<string>` fields starts as a new, empty queue. |
| ConsoleTools.ControllableProcess.CurrentOutputLine | Csharp.Utilities/ConsoleTools/ControllableProcess.cs:90-100 | The stdout line being assembled. Under `Valid()` it never holds a `'\n'`, since a line break is always trimmed off and the buffer cleared. |
| ConsoleTools.ControllableProcess.CurrentErrorLine | Csharp.Utilities/ConsoleTools/ControllableProcess.cs:80-89 | The stderr buffer. By `RunStandardErrorBuffer`, it is every stderr character read since the reader started. |
| ConsoleTools.ControllableProcess.LockAndDequeue | Csharp.Utilities/ConsoleTools/ControllableProcess.cs:395-405 | Returns a fresh array holding the queue's contents, oldest first, and leaves the queue empty, so a second drain returns nothing. |
| ConsoleTools.ControllableProcess.LockAndEnqueue | Csharp.Utilities/ConsoleTools/ControllableProcess.cs:412-418 | Appends the string at the back of the queue. |
| ConsoleTools.ControllableProcess.GetOutput | Csharp.Utilities/ConsoleTools/ControllableProcess.cs:213-216 | Returns the queued stdout lines in order and empties only the output queue. |
| ConsoleTools.ControllableProcess.GetError | Csharp.Utilities/ConsoleTools/ControllableProcess.cs:222-225 | Returns the queued stderr lines in order and empties only the error queue. |
| ConsoleTools.ControllableProcess.SetInput | Csharp.Utilities/ConsoleTools/ControllableProcess.cs:230-233 | Appends the input at the back of the input queue and changes nothing else. |
| ConsoleTools.ControllableProcess.ReaderStep | Csharp.Utilities/ConsoleTools/ControllableProcess.cs:318-357 | Changes the buffers, queues and event log exactly as `LineAssembly.Step` says. |
| ConsoleTools.ResetFor | Csharp.Utilities/ConsoleTools/ControllableProcess.cs:300-310 | A reader clears only the buffer of its own stream before its first read. |
| ConsoleTools.Handled | Csharp.Utilities/ConsoleTools/ControllableProcess.cs:314-364 | A reader stops at end of stream or right after the character at which the stop flag is seen. At least one character of a non-empty stream is handled, so at most one character is handled after the flag is up. |
| ConsoleTools.ControllableProcess.ReadQueueWorker | Csharp.Utilities/ConsoleTools/ControllableProcess.cs:295-366 | Handles exactly `Handled(...)` characters. The final state is the reset state run over those characters, one step each. |
| ConsoleTools.ControllableProcess.WriterStep | Csharp.Utilities/ConsoleTools/ControllableProcess.cs:376-387 | With the stop flag up, nothing is done. Otherwise the queued inputs are written to stdin in order, the queue is emptied, and a 100 ms sleep follows. |
| ConsoleTools.ExitResult | Csharp.Utilities/ConsoleTools/ControllableProcess.cs:205 | The exit code if the process has exited, otherwise -999. |
| ConsoleTools.ControllableProcess.StopWithTimeouts | Csharp.Utilities/ConsoleTools/ControllableProcess.cs:173-206 | Afterwards the stop flag is up and the result is `ExitResult`. The input is queued only if the input thread is alive, and the action log grows by `StopPlan`. |
| ConsoleTools.StopSendsInputBeforeStopping | Csharp.Utilities/ConsoleTools/ControllableProcess.cs:177-193 | With the input thread alive and an input given, the input is queued first and the stop flag is raised only after the sleep. |
| ConsoleTools.StopDropsInputOfDeadThread | Csharp.Utilities/ConsoleTools/ControllableProcess.cs:177-193 | With the input thread dead, the input is never queued and raising the flag is the first action. |
| ConsoleTools.StopRaisesFlagBeforeStoppingReaders | Csharp.Utilities/ConsoleTools/ControllableProcess.cs:173-196 | In every case, the flag is raised before the reader threads are soft-stopped, and waiting for the process comes last. |
| ConsoleTools.ControllableProcess.StopWithInput | Csharp.Utilities/ConsoleTools/ControllableProcess.cs:150-153 | The same as `StopWithTimeouts` with all four timeouts 100. |
| ConsoleTools.ControllableProcess.Stop | Csharp.Utilities/ConsoleTools/ControllableProcess.cs:159-162 | The same as `StopWithInput` without input: nothing is queued and the input thread, if alive, is soft-stopped. |
| ConsoleTools.ControllableProcess.DisposeCore | Csharp.Utilities/ConsoleTools/ControllableProcess.cs:242-261 | On an already disposed object nothing changes. Otherwise a failing kill is logged as requested, leaves the process unreleased and the object undisposed, and reports the exception. A successful kill kills and releases the process and marks the object disposed. |
| ConsoleTools.ControllableProcess.Dispose | Csharp.Utilities/ConsoleTools/ControllableProcess.cs:237-240 | Idempotent: the first successful call disposes, and later calls change nothing. |
| EnumerableExtensions.Repeat | Csharp.Utilities/Extensions/EnumerableExtensions.cs:51-61 | The nested loops yield `items` written out `repeatCount` times. |
| EnumerableExtensions.RepeatedLength | Csharp.Utilities/Extensions/EnumerableExtensions.cs:51-61 | The length is `|items| * repeatCount`, and 0 when `repeatCount <= 0`. |
| EnumerableExtensions.RepeatedAt | Csharp.Utilities/Extensions/EnumerableExtensions.cs:51-61 | Position p of copy q is `items[p]`: every copy is whole and in order. |
| EnumerableExtensions.Increment | Csharp.Utilities/Extensions/EnumerableExtensions.cs:234 | `short` increment: one more, except that 32767 wraps to -32768. |
| EnumerableExtensions.GetValueOrDefault | Csharp.Utilities/Extensions/EnumerableExtensions.cs:176-179 | Returns `list[index]` for an index in range and the default value for any other index. |
| EnumerableExtensions.GetValueOrDefaultIsWindow | Csharp.Utilities/Extensions/EnumerableExtensions.cs:176-179 | For an index in range, the value equals the one-element `GetRange` window at that index. |
| EnumerableExtensions.Invert | Csharp.Utilities/Extensions/EnumerableExtensions.cs:134-141 | Same length, and every element is negated. |
| EnumerableExtensions.InvertInvolutive | Csharp.Utilities/Extensions/EnumerableExtensions.cs:134-141 | Inverting twice gives the input back. |
| EnumerableExtensions.Enumerate | Csharp.Utilities/Extensions/EnumerableExtensions.cs:205-208 | Fails exactly for a negative count. Otherwise it yields 0, 1, ..., val-1. |
| EnumerableExtensions.EnumerateSelect | Csharp.Utilities/Extensions/EnumerableExtensions.cs:216-219 | Fails exactly for a negative count. Otherwise it yields `selector(i)` for i = 0..val-1, in order. |
| EnumerableExtensions.CountInt | Csharp.Utilities/Extensions/EnumerableExtensions.cs:232-238 | For val <= 32767, yields 0..val-1 as `short`s, and nothing for val <= 0. |
| EnumerableExtensions.CountShort | Csharp.Utilities/Extensions/EnumerableExtensions.cs:245-251 | For every `short`, yields 0..val-1, and nothing for val <= 0. |
| EnumerableExtensions.CountIsEnumerate | Csharp.Utilities/Extensions/EnumerableExtensions.cs:205-238 | On non-negative counts, what Count yields is what Enumerate yields. |
| EnumerableExtensions.WindowProperties | Csharp.Utilities/Extensions/EnumerableExtensions.cs:341-353 | The window is empty when end <= start. It is `source[start..end]` for in-range bounds, and element j is the source's element at the clamped start plus j. |
| EnumerableExtensions.GetRange | Csharp.Utilities/Extensions/EnumerableExtensions.cs:341-353 | The skip and yield loops over one enumerator return `source[s .. max(s, min(end, n))]`, where `s = min(max(start, 0), n)`. |
| EnumerableExtensions.For | Csharp.Utilities/Extensions/EnumerableExtensions.cs:396-424 | One call per item, in order, with indices 0..n-1. `isLast` is true exactly on the final item. A null input makes no call. |
| EnumerableExtensions.ForIndexed | Csharp.Utilities/Extensions/EnumerableExtensions.cs:436-446 | One call per item, in order, with indices 0..n-1. A null input makes no call. |
| EnumerableExtensions.Zip | Csharp.Utilities/Extensions/EnumerableExtensions.cs:90 | The length is the shorter input's, and element i combines the inputs' elements i. |
| EnumerableExtensions.Zip3 | Csharp.Utilities/Extensions/EnumerableExtensions.cs:88-91 | The length is the minimum of the three lengths, and element i is `func(source[i], zip1[i], zip2[i])`. |
| EnumerableExtensions.ListOf.Add | Csharp.Utilities/Extensions/EnumerableExtensions.cs:102 | Appends the item at the end of the list. |
| EnumerableExtensions.AddRange | Csharp.Utilities/Extensions/EnumerableExtensions.cs:99-103 | The list ends as its old contents followed by the items, in order. |
| EitherType.FromLeft | Csharp.Utilities/Either/Either.cs:12-17 | Constructed from a left value, the result is Left and its Left getter returns that value. |
| EitherType.FromRight | Csharp.Utilities/Either/Either.cs:19-24 | Constructed from a right value, the result is not Left and its Right getter returns that value. |
| EitherType.IsLeft | Csharp.Utilities/Either/Either.cs:60-63 | True exactly when the value does not hold a right value. |
| EitherType.GetLeft | Csharp.Utilities/Either/Either.cs:28-35 | Callable only on a Left, as the getter throws otherwise, and returns the held value. |
| EitherType.GetRight | Csharp.Utilities/Either/Either.cs:45-52 | Callable only on a Right, as the getter throws otherwise, and returns the held value. |
| EitherType.SetLeft | Csharp.Utilities/Either/Either.cs:36-40 | Makes the value Left, holding the new value, whatever the old tag. |
| EitherType.SetRight | Csharp.Utilities/Either/Either.cs:53-57 | Makes the value Right, holding the new value, whatever the old tag. |
| EitherType.LastSetWins | Csharp.Utilities/Either/Either.cs:36-57 | After two setter calls, the value is what the last one set. |
| EitherExtensions.Match | Csharp.Utilities/Either/EitherExtensions.cs:7-21 | On a Left, returns `leftMatcher(left)`. On a Right, returns `rightMatcher(right)`. Only the active getter is read, so no precondition is needed. |
| EitherExtensions.MatchConstructorsRebuilds | Csharp.Utilities/Either/EitherExtensions.cs:13-20 | Matching with the two constructors rebuilds an equal value. |
| EitherUtils.Bind | Csharp.Utilities/Either/EitherUtils.cs:7-16 | The bound function maps `Left a` to `func(a)` and `Right c` to `Right c`. |
| EitherUtils.BindLeftConstructorIsIdentity | Csharp.Utilities/Either/EitherUtils.cs:12-15 | Binding the Left constructor is the identity on Eithers. |
| EitherUtils.BindAssociative | Csharp.Utilities/Either/EitherUtils.cs:7-16 | Binding f and then g equals binding the function that binds g after f. |
| EitherUtils.ReturnParam | Csharp.Utilities/Either/EitherUtils.cs:18-24 | The returned function gives back its argument unchanged. |
| EitherUtils.ReturnEitherLeft | Csharp.Utilities/Either/EitherUtils.cs:26-29 | The returned function maps x to `Left(func(x))`. |
| EitherUtils.Identity | Csharp.Utilities/Either/EitherUtils.cs:48-51 | Returns the given function itself. |
| EitherUtils.CombineInvoke | Csharp.Utilities/Either/EitherUtils.cs:37-45 | The loop of the combined function returns `gn(...g1(firstFunc(arg)))`. |
| EitherUtils.Combine | Csharp.Utilities/Either/EitherUtils.cs:31-46 | With no further functions, the combined function is `firstFunc`. |
| EitherUtils.CombineSnoc | Csharp.Utilities/Either/EitherUtils.cs:37-45 | A function added at the end is applied last, to the result of the others. |
| EitherUtils.CombineHead | Csharp.Utilities/Either/EitherUtils.cs:37-45 | The first further function is applied right after `firstFunc`. |
| EitherUtils.ApplyInOrderCons | Csharp.Utilities/Either/EitherUtils.cs:39-44 | The fold runs from the left: the first function of the list is applied first. |
| EitherUtils.ApplyInOrderAppend | Csharp.Utilities/Either/EitherUtils.cs:39-44 | Folding over a concatenation folds over the first part and then the second. |
| DataStructures.DefaultValueDictionary.constructor | Csharp.Utilities/DynamicDictionary/DefaultValueDictionary.cs:40-43 | An empty dictionary. |
| DataStructures.DefaultValueDictionary.FromDictionary | Csharp.Utilities/DynamicDictionary/DefaultValueDictionary.cs:49-52 | A dictionary holding the given entries. |
| DataStructures.DefaultValueDictionary.Get | Csharp.Utilities/DynamicDictionary/DefaultValueDictionary.cs:99-106 | The stored value of a present key. For an absent key it returns the default value instead of failing. |
| DataStructures.DefaultValueDictionary.Set | Csharp.Utilities/DynamicDictionary/DefaultValueDictionary.cs:107 | Afterwards the key reads as the new value and is present, and other keys read as before. Count is unchanged for an existing key and grows by one for a new key. |
| DataStructures.DefaultValueDictionary.Add | Csharp.Utilities/DynamicDictionary/DefaultValueDictionary.cs:67-70 | For a new key: the key becomes present and Count grows by one. |
| DataStructures.DefaultValueDictionary.AddPair | Csharp.Utilities/DynamicDictionary/DefaultValueDictionary.cs:114-117 | The same as `Add` for the pair's key and value. |
| DataStructures.DefaultValueDictionary.ContainsKey | Csharp.Utilities/DynamicDictionary/DefaultValueDictionary.cs:72-75 | A missing key reads as the default value, and a present key means `Count` is positive. |
| DataStructures.DefaultValueDictionary.Contains | Csharp.Utilities/DynamicDictionary/DefaultValueDictionary.cs:124-127 | True exactly when the key is present and the indexer returns that value for it. |
| DataStructures.DefaultValueDictionary.Remove | Csharp.Utilities/DynamicDictionary/DefaultValueDictionary.cs:82-85 | Returns true exactly when the key was present. Afterwards the key is absent and reads as the default, and Count drops by one if it was removed. |
| DataStructures.DefaultValueDictionary.RemovePair | Csharp.Utilities/DynamicDictionary/DefaultValueDictionary.cs:144-147 | Removes the key only when it holds exactly that value, and says whether it did. |
| DataStructures.DefaultValueDictionary.TryGetValue | Csharp.Utilities/DynamicDictionary/DefaultValueDictionary.cs:87-90 | Reports whether the key is present, with its value if so and the default otherwise. |
| DataStructures.DefaultValueDictionary.Count | Csharp.Utilities/DynamicDictionary/DefaultValueDictionary.cs:134-137 | The number of keys. |
| DataStructures.DefaultValueDictionary.Clear | Csharp.Utilities/DynamicDictionary/DefaultValueDictionary.cs:119-122 | Afterwards Count is 0 and every key reads as the default. |

## Left out

- Threads, `lock` blocks, `Thread.Sleep(1)` in the reader, `Join` and `Abort` are concurrency. Each worker is a method run on its own. For the reader worker, the moment another thread raises the stop flag comes in as a parameter (`stopRaisedAfter`). The input worker's round reads the `stopped` field as it stands.
- `Start` is left out: it starts the OS process and three threads. Event handler dispatch is left out too: every event is logged whether or not a handler is attached.
- `Process.Kill`, `Dispose`, `WaitForExit`, `HasExited` and `ExitCode` are calls into the operating system. Their answers are parameters, and the requests are logged.
- `ThreadSoftStop` is recorded as one action. Whether the thread joins in time or is aborted is not modelled.
- ConsoleTools.ControllableProcess.WriterStep: models one round of the input worker's `while (!_stopped)` loop, not the loop itself. In a single-threaded model nothing raises the flag between rounds, so with the flag down the loop would never end.
- `Stop` before `Start` (a null input thread, so a NullReferenceException) is not modelled. Neither is the re-throw in `Stop`'s catch block.
- The current-line fields are null in C# until a reader starts. The model starts them as empty strings.
- Strings cannot be null here, so `SetInput(null)` is not modelled.
- ConsoleTools.ControllableProcess.DisposeCore: models the exception from `Kill` as `ok == false`. An exception from `Process.Dispose` is not modelled.
- ConsoleTools.ControllableProcess.ReadQueueWorker: a `char` here is a Unicode scalar value, read in one step. `StreamReader.Read(buffer, 0, 1)` returns UTF-16 code units, so in C# a character outside the Basic Multilingual Plane takes two reads, two steps and two char events. A lone surrogate cannot be represented. The same holds for ConsoleTools.ControllableProcess.ReaderStep.
- EnumerableExtensions.CountInt: requires val <= 32767. For larger values the `short` counter wraps before reaching `val` and the enumeration never ends.
- EnumerableExtensions.AddRange: takes the items as a sequence value, so aliasing is not captured. In C#, `list.AddRange(list)` on a non-empty `List<T>` adds the first item and then throws InvalidOperationException from the list's own enumerator. The model appends a copy of the old contents instead.
- EnumerableExtensions.ListOf.Add: never fails. `IList.Add` throws NotSupportedException on an array or a read-only list, and that is not modelled.
- EitherUtils.Combine: the combined function keeps `moreFuncs` as a sequence value. The C# lambda holds the `params` array by reference, so writes to that array after `Combine` returns change what the function does. The model does not capture that.
- Null sources are not modelled except where the code checks for them (`For`), because sequences cannot be null. Deferred (lazy) execution and multiple enumeration of `Repeat`'s input are not modelled either.
- The actions in `For`, `ForIndexed` and `ReturnParam` have no visible effect. The model records the calls and the returned values.
- These `EnumerableExtensions` members are left out:
  - `StdDev` is floating point.
  - `Merge`, both `DynamicEqualityComparer`s, `Distinct(comparer)`, and the params `Except` and `Union` depend on LINQ set internals, and with a constant hash code they cannot be stated from the visible code.
  - `ToSortedDictionary`, `ToReadOnlyCollection`, `ToHashSet`, `ToObservableCollection`, and `AddRange` on `ObservableCollection` and `HashSet` are thin wrappers over library collections.
  - `ToBidirectionalMap` needs `BidirectionalMap`, which is not part of this model.
  - `GetEnumerableType` is reflection.
  - `JoinStr` needs `ToString`.
  - `EnumerateHeadAndTail` and `EnumerateTail` share a live enumerator.
  - `Each` is a side-effecting callback.
- Either: `default(Either)` is left out, an all-zero struct that reads as a Right holding default(TRight). So is the overlapping storage of `Union.cs`. The datatype is the tagged value those encode.
- DefaultValueDictionary: left out are the comparer constructor, `Keys`, `Values`, `CopyTo`, `IsReadOnly`, the enumerators and null-key exceptions.
- DataStructures.DefaultValueDictionary.FromDictionary: copies the entries, while the source shares the caller's dictionary. Later changes through either reference are not reflected in the other.
- DataStructures.DefaultValueDictionary.Add: an existing key throws in the source. The model makes a new key a precondition instead of modelling the exception.
- EitherType.GetLeft: the exception for reading the wrong side is a precondition, and the same holds for EitherType.GetRight.
- `DynamicDictionary.cs` is left out: it is dynamic binder dispatch over the same storage as `DefaultValueDictionary`.
- `TrySimple.cs` is exception and task plumbing, left out.
- `cmd.cs`, `Bootstrapping.cs` and `FileSystemHelpers.cs` are console, shell and file-system I/O, left out.
- `DateTimeExtensions.cs` is culture-dependent formatting, left out.
