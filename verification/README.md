# A verified model of rblpolicyd

rblpolicyd is a policy daemon for Postfix that looks a client up in several DNS
block lists at once and rejects it when the weights of the lists naming it add
up to 100. This project models the parts of it that are hard to get right and
proves what they promise, in Dafny. `dafny verify dfyconfig.toml` checks it.

**getopt.** `GetoptSpec` gives a meaning to one call and to a whole scan without
ever moving an element of the argument vector. `Getopt.Scanner` is the real
thing: the static variables are the fields of a class, `argv` is an array, and
elements are exchanged in place by `Rotation.Rotate`. Every call is proved to
report what the pure call reports, for every ordering mode, option table and
point in the scan; when it returns -1, `argv` holds the options in front of the
non-options. `GetoptTheory` then says what a whole scan is worth: a stable
partition by the role that every element has in the original vector (option,
separate argument, `--` or operand), and a normal form (with the exact condition).
`GetoptMeaning` says what a single element comes to, in terms of the table and
the characters. `GetoptRender` writes options down and proves that scanning reads
them back.

**Lookups.** `LookupProtocol` is a step system: any number of workers, each with
one solver thread per list, the mutexes, the condition variable (with spurious
wakeups), the solver manager's list, and `pthread_create` that may fail.
`LookupSafety`, `LookupRaces` and `LookupLiveness` hold for every schedule.
`Verdict` is the decision itself, with its reply buffer and the answer that is
sent, in the parallel and in the sequential form, and why the two agree.
`ThreadManager` is the doubly linked list on the heap, `WorkerCap` the creation
and exit of workers under the cap.

**snprintf.** `Format` says what a format and its arguments print when nothing
limits the output; `Snprintf` is the state machine writing into a bounded
buffer, proved to leave exactly the longest prefix that fits. `Numbers` and
`FormatTheory` say what the digits denote and what a format means,
`ConversionTheory` what every conversion prints for its argument.

**Configuration and statistics.** `Config` reads lines in place into a linked
list and prints it; `ConfigLines` says what a line means and `ConfigTheory` what
a file means, and when printing and reading are inverse.
`Stats` is the ring of the last sixteen durations, `Uptime` the printed uptime.

Integers are unbounded in the model; where the C code relies on a width, the
wrap-around is written out. `char` arrays are arrays of `char`, C strings are
sequences without NUL, a NULL pointer is `None` or `null`. What the code gets
from outside (the environment variable POSIXLY_CORRECT, the answers of the DNS,
whether memory and threads can be had, the text of floating-point numbers) is a
parameter or a nondeterministic step.

Three findings, each stated as an exact condition and shown by an input. A
permuted vector is a normal form unless an option lacked its argument while
non-options were skipped (`GetoptTheory.PermutedIsNormalForm`): with `-o`
wanting an argument, `p x -o` is permuted to `p -o x`, where `-o` now has one
(`GetoptTheory.MissingArgumentIsFound`). `ring_average` is the floor of the mean
unless the sum is negative and the count no power of two
(`Stats.AverageIsFloor`): the average of -1, -1, -1 comes out as 1431655764
(`Stats.AverageIsNotFloor`). A worker answers unless a solver thread could not
be created, in which case it sleeps forever (`LookupLiveness.EndOfRun`): a run
of one worker with one list gets there (`LookupLiveness.FailedCreationHangs`).
Where code and comments differ the model follows the code: `cfg_dump` prints
tags that `cfg_read` rejects, polling for a free worker slot cannot succeed
because the poller holds the lock that an exiting worker needs, and a precision
of `%s` cuts the padded text, not the argument.

## Model

| member | source | states |
|---|---|---|
| GetoptSpec.LookupLongMeaning | getopt.c:623-696 | a long option is looked up as the first one of that very name; otherwise the abbreviation must fit exactly one; and `Unknown` only if none fits |
| GetoptSpec.IndexFromIsFirst | getopt.c:724 | the short option found is the first occurrence of its character, and none is found only if there is none |
| GetoptSpec.DecodeFound | getopt.c:654-697 | decoding a long option that was found leaves the element, takes at most the next one, and takes that only if there is one |
| GetoptSpec.DecodeShort | getopt.c:719-874 | a short option stays in its element exactly while characters are left and none was taken as its argument |
| GetoptSpec.ShortErrors | getopt.c:729-870 | a short option is an error if and only if it is none of the caller's or its required argument is missing; optopt names it, and only the missing argument is reported as `:`, if optstring starts with one |
| GetoptMeaning.LongErrors | getopt.c:646-716 | a long option is an error if and only if no option has the name as a prefix, or none has that very name and more than one has it as a prefix, or the option chosen takes no argument and a value was given, or its required argument is missing; the error finishes the element, and its code and optopt are stated for each case |
| GetoptMeaning.LongReports | getopt.c:662-697 | where it is no error, the option chosen is reported: its index, its value (or 0 and the value stored through its flag), and as argument what follows `=`, or the next element if one is required |
| GetoptMeaning.LongOnlyFallsBack | getopt.c:614-716 | with long_only and a single dash, what fits no entry but starts with a short option is read as if there were no table |
| GetoptMeaning.HasName | getopt.c:622-623 | every text has a name, the part before the first `=`, so that these cases are all there are |
| GetoptMeaning.UnknownShort | getopt.c:729-742 | a character that is no option, or `:`, is reported as an error that names it, and the scan goes on behind it |
| GetoptMeaning.ShortFlag | getopt.c:719-729 | an option character without an argument is reported, and the scan goes on behind it |
| GetoptMeaning.ShortWithArgument | getopt.c:838-870 | an option character with an argument takes the rest of the element; if there is none, an optional argument is absent and a required one is the next element or missing |
| GetoptMeaning.OptionIsRead | getopt.c:522-598 | a call that stands at an option or in the middle of one decodes it behind its punctuation, with an option string whose ordering character only the first call skips, and counts as passed what it took |
| GetoptMeaning.FirstOperand | getopt.c:549-590 | an operand that comes first is reported with code 1 after a leading `-` in optstring, ends the scan after a leading `+` or with POSIXLY_CORRECT, and otherwise is skipped and comes first among the non-options |
| GetoptSpec.SkipsNonOptions | getopt.c:549-551 | what is skipped are non-options, and what is reached is an option or the end |
| GetoptSpec.CallProgress | getopt.c:527-873 | in all three ordering modes a call that does not return -1 strictly decreases (elements left, unread characters) lexicographically and keeps the scan well-formed |
| Rotation.Rotate | getopt.c:337-367 | the two adjacent blocks are exchanged in place, nothing else moves, and the swaps of elements, counted where they are made, are exactly a + b - gcd(a, b) for non-empty blocks |
| Rotation.GcdIsGreatest | getopt.c:337-367 | the gcd that the cost speaks of divides both lengths, and every common divisor divides it |
| Rotation.RotatedBlocks | getopt.c:304-373 | rotating is exchanging the two blocks: before, second, first, after |
| Rotation.CostStep | getopt.c:338-366 | one pass of the loop is one step of subtractive Euclid and costs the shorter length |
| Getopt.Scanner.Exchange | getopt.c:304-373 | argv is rotated, and first_nonopt and last_nonopt bracket the moved non-options |
| Getopt.MyIndex | getopt.c:724 | the loop finds the first occurrence |
| Getopt.FindLong | getopt.c:626-643 | the loop over the option table gives what the lookup by name defines |
| Getopt.Scanner.Prepare | getopt.c:527-552 | the exchange and the skip in front of a fresh element leave options, skipped non-options and the untouched suffix in this order |
| Getopt.Scanner.EndOfScan | getopt.c:554-580 | `--` and the end of argv end the scan, with all options in front and optind behind them; nothing else does |
| Getopt.Scanner.LongOptionAt | getopt.c:613-717 | the return value, optarg, optopt, longind, the flag and optind are those of the pure decoding of a long option, and nothing is changed where it is to be read as a short one |
| Getopt.Scanner.ShortOptionAt | getopt.c:719-874 | the same for the next short option character |
| Getopt.Scanner.Next | getopt.c:496-875 | one call on the permuted argv does what the pure call does on the original argv, and keeps the invariant; -1 leaves argv permuted and optind at the non-options |
| Getopt.Scanner.Bounds | getopt.c:527-596 | between calls 1 <= first_nonopt <= last_nonopt <= optind <= argc; argv from optind on is the untouched original suffix, between first_nonopt and last_nonopt are the non-options skipped, and around them the options passed, in their original order |
| Getopt.ArrangedExchange | getopt.c:541-542 | an exchange brings the options found last in front of the skipped non-options and keeps the layout |
| Getopt.FinishedMeaning | getopt.c:574-580 | in the end argv is its start, then the options, then the non-options, and optind is where they begin |
| GetoptScan.ScanAll | getopt.c:496-875 | calling until -1 ends, reports the codes and arguments of the scan of the original argv, and leaves argv as options and non-options |
| GetoptScan.Permutes | getopt.c:527-590 | in PERMUTE mode argv from its start to optind ends up as exactly the options, separate arguments and `--` of the original one, and from optind on exactly its operands, each in original order; the separate arguments are the ones reported |
| GetoptTheory.ScanIsStablePartition | getopt.c:527-590 | the options of a scan are the elements whose role is not operand, the non-options those whose role it is, and the arguments taken from elements of their own are those with the role of an argument; every element has one role |
| GetoptTheory.RolesAt | getopt.c:527-590 | the role of an element depends on what precedes it only: behind `--` it is an operand; behind an option element that takes the next one it is its argument, even if it reads `--`; otherwise its own form decides |
| GetoptTheory.PermutedIsNormalForm | getopt.c:395-404 | rescanning a permuted argv with POSIXLY_CORRECT reports the same items and stops at the same index if no option was left without its argument in front of non-options, and reports something else otherwise |
| GetoptTheory.MissingArgumentIsFound | getopt.c:850-866 | with optstring `o:`, `p x -o` reports a missing argument and becomes `p -o x`, whose rescan reports `x` as the argument of `-o` |
| GetoptTheory.OtherModesMoveNothing | getopt.c:559-590 | in the other two modes argv stays as it is; REQUIRE_ORDER stops at a non-option or behind a `--`, RETURN_IN_ORDER only behind a `--` or at the end |
| GetoptTheory.DecodeLocal | getopt.c:613-873 | how an option is decoded depends on the following element only if it is taken or missed |
| GetoptRender.ScanReadsWhatWasWritten | getopt.c:496-875 | clusters of flags, options with required or optional arguments, long options abbreviated or not with glued or separate values, and operands, in any order and with or without `--`, are reported as they were meant |
| Verdict.IsListed | worker.c:327-341 | the loop over the addresses finds out whether one is in 127/8 |
| Verdict.AppendDomain | worker.c:248-260 | after an append replen is the length of reply with its NUL, and reply is the ", "-join of the domains so far |
| Verdict.SplitsAsJoined | worker.c:248-260 | cut at every ", ", the text joined from words without spaces falls into these words again, in order |
| Verdict.VerdictIsOfHits | worker.c:242-262 | the score is the sum of the weights at exactly the positions of the lists that name the client, and the blocking domains are those at these positions, in increasing order |
| Verdict.Collect | worker.c:242-276 | the loop over the results computes the sum of the weights of the lists that name the client; with 100 or more there is a reply; and what is in the reply buffer, cut at every ", ", gives exactly the blocking domains in configuration order |
| Verdict.PositiveScoreBlocks | worker.c:270-276 | with positive weights the score is positive exactly if some list names the client |
| Verdict.ProcessRequest | server.c:294-338 | asking list by list stops at the first total of at least 100, with the score of the lists asked, and a reply buffer that comes apart into exactly the domains of those that block |
| Verdict.AskedStops | server.c:294-333 | every earlier total is below 100, and where it stops it has reached 100 or the end of the list |
| Verdict.EarlyVerdictIsVerdict | server.c:294-338 | the early exit rejects if and only if the full sum does, and its blocking domains and its reply text are a prefix of the full ones |
| Verdict.WorkerAnswer | worker.c:242-282 | the client is sent a rejection if and only if no error occurred and the weights of the lists that name it add up to 100, and behind its fixed words the text comes apart into exactly the blocking domains; otherwise it is sent `action=DUNNO` |
| Verdict.RequestAnswer | server.c:294-343 | process_request rejects the same clients, and names a prefix of the same domains |
| LookupProtocol.DoWellShaped | worker.c:208-284 | no step of a worker or solver leaves the ranges of the result array |
| LookupSafety.CountIsPending | worker.c:212-240 | in every run `resolvers` is the number of solvers counted in that have not yet counted themselves out |
| LookupSafety.AnswerIsVerdict | worker.c:231-268 | in every run, whatever the schedule, a worker leaves its wait only after all its solvers wrote their score, and when it has collected them its score and its blocking domains are those of the full decision in configuration order |
| LookupSafety.SleeperWillWake | worker.c:233-238 | no wakeup is lost: while a worker sleeps, one of its solvers has still to decrement or to broadcast, or could not be created |
| LookupSafety.NoLateAccess | worker.c:245-267 | no solver that would still use its result record exists once the worker frees such records |
| LookupSafety.LocksNest | worker.c:214-356 | every thread takes mutexes in one order: resolvers_, then the init, manager and list mutexes, then those of the statistics; the two that a worker takes on its way out while it still owns its resolvers_ (worker.c:299-300) are included |
| LookupSafety.HoldsAfter | worker.c:214-356 | a step changes the mutexes its thread is holding, by its own lock or unlock, and nobody else's |
| LookupSafety.LocksKeep | thrmgr.c:229-262 | every step keeps: a mutex is owned by exactly the thread whose code is between its lock and its unlock |
| LookupRaces.WritesUnderLock | worker.c:214-349 | no data race: in every run, whoever changes the counter, the total or the reply of a worker, or the list or the counter of the solver manager, owns the mutex of it at that moment, and so does a worker that tests its counter |
| LookupSafety.ListIsExact | thrmgr.c:235-260 | in every run the solver manager's list holds each registered live solver once, its counter is its length, and an exiting solver finds its entry |
| LookupLiveness.NobodyWaits | worker.c:214-356 | there is no deadlock: where nothing can move, the only mutexes owned are the resolvers_ of workers that have exited |
| LookupLiveness.RunsAreShort | worker.c:208-356 | every schedule ends: its length is at most workers * (28 * lists + 7) plus three per spurious wakeup |
| LookupLiveness.EndOfRun | worker.c:228 | where no step is possible a worker has answered and exited if and only if all its solvers could be created, and otherwise sleeps forever; its answer is the verdict; the manager's list is empty |
| LookupLiveness.FailedCreationHangs | worker.c:227-237 | for every configuration of one worker and one list there is a run to a state in which no step is possible and the worker is asleep |
| LookupLiveness.AllAnswer | worker.c:208-284 | if every rthread_create succeeds, every complete run ends with every worker's verdict, which is that of process_request |
| ThreadManager.Manager.Register | thrmgr.c:71-99 | the entry is put in front, links and counter are kept, the walk finds no missing back link and counts the list; without memory the counter is one too high |
| ThreadManager.Manager.Unregister | thrmgr.c:104-133 | the first entry of the thread is removed and 0 returned, or nothing changes and -1 is returned; links and counter are kept |
| ThreadManager.Manager.Unlink | thrmgr.c:111-119 | relinking around an entry removes exactly that entry and keeps `next` and `last` inverse to each other |
| ThreadManager.BypassLinks | thrmgr.c:111-118 | links that skip one entry are the links of the list without it |
| Prelude.RemovesOne | thrmgr.c:109-127 | unregistering from a list without repetitions removes exactly that thread |
| WorkerCap.CapHolds | thrmgr.c:163-214 | in every run the workers in service are never more than the cap, and the counter is the length of the list plus the entries lost for want of memory |
| WorkerCap.ExitFindsEntry | thrmgr.c:182-213 | an exiting worker finds its entry unless it was cancelled because it got none |
| WorkerCap.CallOutcome | thrmgr.c:182-213 | a call ends with the application-state error if and only if its check saw that the service was not running; otherwise with too many threads if and only if no slot was free when the lock was taken, and else with success or a system error; it is a success if and only if the one thread it created is in front of the list and not cancelled |
| WorkerCap.StoppedCallCreatesNothing | thrmgr.c:184-191 | whatever else happens, a call that finds the service stopped leaves with that error, and until it has left no thread was created |
| WorkerCap.GivesUp | thrmgr.c:183-196 | with all slots taken the call sleeps exactly twenty times and then gives up, with nothing changed |
| WorkerCap.PollsSeeNoChange | thrmgr.c:182-186 | while the creator polls, the counter does not change and no worker is unregistering |
| WorkerCap.LeakBlocksForGood | thrmgr.c:76-81 | once as many entries were lost as the cap allows, no worker is ever created again |
| Numbers.NumeralValue | snprintf.c:452-457 | reading the last n digits of a number back gives the number modulo base^n |
| Numbers.NumeralAt | snprintf.c:452-457 | the digit at place i is the remainder after i divisions |
| Snprintf.OutCh | snprintf.c:645-649 | the buffer takes one more character of the output if it has room, and nothing else changes |
| Snprintf.ConvertDigits | snprintf.c:452-460 | the scratch buffer of 20 characters is never overrun and holds the digits in reverse, at most 19 of them |
| Snprintf.FmtInt | snprintf.c:427-502 | what is written is the field: spaces, sign, zeros, digits, or spaces at the end, cut to the buffer |
| Snprintf.FmtStr | snprintf.c:394-422 | what is written is the padded text, cut to the precision and to the buffer |
| Snprintf.HoldsAnyway | snprintf.c:340-342 | a default precision of maxlen is as good as none |
| Snprintf.ReadSpec | snprintf.c:151-235 | a transition between `%` and the conversion consumes a character or lowers the rank of the state, never passes the NUL, and keeps what is still to be written |
| Snprintf.Dopr | snprintf.c:130-391 | for every format and arguments the machine ends, reads nothing beyond the NUL, and leaves the first min(maxlen - 1, L) characters of the unbounded output of length L, a NUL, and the rest of the buffer untouched |
| Snprintf.Vsnprintf | snprintf.c:656-661 | the result is the length of that prefix; if the output itself contains a NUL, the index of the first one |
| FormatTheory.DigitsDenote | snprintf.c:452-460 | the printed digits denote the number modulo base^19, so they are exact if and only if it is below base^19 |
| FormatTheory.FieldLength | snprintf.c:462-473 | a field is as long as the larger of its width and its sign and digits if and only if zero padding does not meet a precision above the number of digits |
| FormatTheory.FieldReadsBack | snprintf.c:427-502 | whatever the width, the precision and the flags, the field printed for a number in base 8, 10 or 16 reads back as the number modulo base^19, with its sign |
| FormatTheory.OutputIsMeaning | snprintf.c:139-386 | a format written down from literal text and conversions with flags, width, precision and length prints what these mean, in order |
| ConversionTheory.Converts | snprintf.c:151-386 | a conversion in any format prints one argument with the flags, width, precision and length that it names, the `*`s taking theirs first, and what follows gets the arguments behind it |
| ConversionTheory.IntegerText | snprintf.c:236-347 | %d, %i, %o, %u, %x, %X and %p print, for every argument of the C type that the length names, spaces, the sign, zeros, the digits of the argument in the base and the letter case of the conversion, and spaces, each as many as flags, width and precision ask for |
| ConversionTheory.IntegerReadsBack | snprintf.c:236-347 | so the text reads back as the argument, for every length and every value, if and only if it is not an unsigned number of 20 or more digits, in decimal or in octal |
| ConversionTheory.LargestUnsignedIsCut | snprintf.c:457-459 | `%lu` prints ULONG_MAX without its first digit |
| ConversionTheory.StringText | snprintf.c:394-422 | %s prints the string or `<NULL>`, filled up to the width on the side that the flags say, cut to the precision |
| ConversionTheory.SmallText | snprintf.c:308-366 | %c prints its character and %f the text of its float; %e, %E, %g, %G and %n take an argument and print nothing |
| ConversionTheory.NoArgumentText | snprintf.c:367-375 | %% prints a percent sign, %w swallows the next character, and any other character is dropped with its percent sign |
| ConversionTheory.QuadIsLongLong | snprintf.c:223-226 | the length `q` is `ll` |
| Config.CleanLine | cfgfile.c:53-62 | the line in the buffer becomes what is in front of the comment, without white space at its end |
| Config.Fgets | cfgfile.c:85 | at most 1022 characters or up to the newline are taken |
| Config.ReadEntry | cfgfile.c:93-136 | the loops over the line take the first word and the number behind it, with the three errors |
| Config.Append | cfgfile.c:138-145 | the list gets the item at its end and stays a chain |
| Config.CfgRead | cfgfile.c:65-155 | the linked list holds the entries of the file in order; NULL and a message with the line for the first error |
| Config.CfgDump | cfgfile.c:170-177 | the walk over the list prints its entries in order between the tags |
| ConfigLines.CleanIs | cfgfile.c:53-62 | cleaning takes away exactly a comment and the white space before it |
| ConfigLines.LoneWord | cfgfile.c:107-111 | a line with one word is a premature end of line |
| ConfigLines.WeightLine | cfgfile.c:93-136 | for a domain, white space, an optional sign, digits in one of three bases and trailing text: an entry if and only if nothing trails and the signed number is within 1..32767, out of range if and only if nothing trails and it is not, and not numeric if and only if something trails or there are no digits |
| ConfigLines.EveryLine | cfgfile.c:85-136 | every line is white space, a lone word or an entry of that shape, so that these cases are all there are |
| ConfigTheory.FileReadsAsWritten | cfgfile.c:85-148 | a file of good lines is loaded as their entries in order; comments, blank lines and white space do not matter |
| ConfigTheory.FirstErrorIsReported | cfgfile.c:107-137 | the first bad line is reported with its problem and the number of lines read, where a line of 1022 characters counts twice, and nothing is loaded |
| ConfigTheory.LastNewline | cfgfile.c:85 | whether the last line ends in a newline does not matter, for any file |
| ConfigTheory.PrintedListReadsBack | cfgfile.c:170-176 | the printed entries load as the same list if and only if every printed line has at most 1022 characters; otherwise the file is rejected |
| ConfigTheory.LongLine | cfgfile.c:85-111 | a line beyond the buffer is cut so that a line with one word remains, which is an error |
| ConfigTheory.WholeDumpIsRejected | cfgfile.c:107-111 | with its tags the dump is rejected in its first line, whatever the list |
| ConfigTheory.LoadedIsPrintable | cfgfile.c:94-136 | whatever the file, every loaded entry has a word as domain, without a space or a NUL, and a weight within 1..32767 |
| ConfigTheory.LoadedListReadsBack | cfgfile.c:85-176 | a list loaded from any file and printed loads again as the same list, if its lines fit |
| ConfigTheory.EntryIsFormatted | cfgfile.c:173 | the printed line is what the portable formatter makes of its format |
| Stats.Ring.Store | stats.c:108-113 | after n updates the ring holds the last min(n, 16) samples, rotated |
| Stats.Ring.Average | stats.c:171-182 | the sum is accumulated in unsigned 64-bit arithmetic and divided by the count, 0 for an empty ring; what is returned is the floor of the mean of the window if and only if its sum is not negative or the count is a power of two |
| Stats.AverageIsFloor | stats.c:171-182 | the result is the floor of the mean if and only if the sum is not negative or the count is a power of two |
| Stats.AverageIsNotFloor | stats.c:171-182 | for the samples -1, -1, -1 the mean is -1 and the result 1431655764 |
| Uptime.Split | stats.c:189-196 | the parts satisfy d < 7, h < 24, m < 60, s < 60 and recombine to the number of seconds |
| Uptime.UptimeDenotes | stats.c:198 | the text of weeks, days, hours, minutes and seconds reads back as their number of seconds |
| Uptime.TwoDigitsAre | stats.c:198 | hours, minutes and seconds are printed with exactly two digits |
| Uptime.FmtSecs | stats.c:185-200 | for every unsigned number of seconds, the text that snprintf makes of the format reads back as that number |

## Left out

- Sockets, accept and select loops, fork, signals, syslog, the DNS resolver itself: foreign calls. The DNS is an oracle from list to answer.
- read_request and parse_request (server.c), the check of the client address with sscanf and the building of query names (worker.c:200-213): a request enters the model as the answers to its lookups.
- Reloading the configuration: APP_RELOAD is never set, and the result of thr_waitcomplete is tested the wrong way round (server.c:201), so there is no property to state.
- Floating-point conversion (fmtfp, pow10, round): its text is a parameter of the formatter model.
- Snprintf.Dopr: does not model what `%n` stores; it takes its argument and prints nothing, as in the code. A format that ends in `%w` is excluded, for the code would read beyond its NUL; so is a buffer size of 0 or above INT_MAX, and widths are unbounded integers.
- Snprintf.Vsnprintf: takes a buffer of at least one character, as str[0] is written unconditionally.
- Getopt.Scanner.Next: does not model the `W;` extension, error messages, the `_LIBC` flag code, a caller that rewrites argv or moves optind between calls, and a second initialisation by optind 0.
- GetoptScan.ScanAll: requires that no long option returns -1, since a caller could not tell that from the end. Option characters are compared as characters; whether char is signed is not modelled.
- A leading `-` or `+` of optstring is skipped by the initialising call only; the model does the same (GetoptSpec.ShortOptions).
- GetoptRender.ScanReadsWhatWasWritten: is about PERMUTE mode and getopt_long: option strings without a leading `-` or `+`, and no long options with a single dash; what the other orderings do is stated for any vector by GetoptTheory.OtherModesMoveNothing.
- LookupProtocol.DoWellShaped: the model starts where a worker has its client address. A failing malloc of a result record or list entry, and pthread_cancel, are not steps of it; the walks over the list for debug messages after the unlock (thrmgr.c:123-125) and the first-use initialisation of the statistics rings are left out. A worker takes the mutex of the worker manager on its way out; the list behind it is the subject of WorkerCap, and the accepting thread, which also takes that mutex, is not a thread of LookupProtocol.
- LookupSafety.NoLateAccess: covers the result records and what they point to, not the time a mutex implementation spends inside unlock.
- The scores of a verdict are unbounded integers; a C int overflows only beyond 65000 lists.
- ThreadManager.Manager.Register: the start time of a thread is left out, and freed entries are merely unlinked.
- WorkerCap.CapHolds: thread ids are never reused in the model; a cancelled thread either ends before it takes the lock or runs to its end. The creation of the manager itself, the statistics call after the unlock, and maxthreads <= 0, where no worker thread is created at all, are left out.
- Config.CfgRead: opening the file, running out of memory, and freeing the list on an error (cfg_free) are left out; strtol and fgets are modelled from the C standard, isspace in the C locale.
- Stats.Ring.Store: durations are arbitrary ints; the units in which the code computes them (tv_usec / 1000 + tv_sec) are not modelled, nor are the other counters.
- rblpolicyd.c, pidfile.c, xmalloc.c, getopt1.c, headers and build scripts: wrappers and setup.
