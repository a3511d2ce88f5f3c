# CaiShell job list and command-line tokenizer

CaiShell is a small Unix job-control shell written in C. This project models
three parts of `CaiShell.c` and proves properties about them:

- **The job list.** This is the global array `jobs[MAXJOBS]` of 16 `struct job_t`
  slots plus the global counter `nextjid`, together with the routines that
  use them: `clearjob`, `initjobs`, `maxjid`, `addjob`, `deletejob`, `fgpid`,
  `getjobpid`, `getjobjid` and `pid2jid`.
- **The job-state changes.** `do_bgfg` sets a job to BG or FG. The bookkeeping
  in `sigchld_handler` marks a stopped child ST and deletes an exited or
  signalled child.
- **The tokenizer `parseline`** and the helper `myStrchr`.

The project has five modules:

- `Wrappers` (`wrappers.dfy`): the `Option` type. `None` stands for C's NULL.
- `CStrings` (`cstrings.dfy`): `myStrchr`, plus the libc routines the core
  depends on. `strchr` becomes `StrChr`; `atoi` becomes `Atoi`, `Signed`,
  `DropSpaces` and `DigitPrefix`. Strings are modelled as `seq<char>`.
- `Parse` (`parse.dfy`): `parseline`.
  - `Scan` is a recursive reference definition of the tokens it collects,
    and `Parsed` of its result (argv and the return value).
  - The methods run the C code's pointer walk as index loops:
    - `SkipSpaces` stops at the first non-space and leaves the tokens still
      to be read unchanged;
    - `NextDelim` (no loop) splits off `Scan`'s next token at a token start;
    - `NextToken` is the skip-then-search step the C code repeats before and
      inside its loop;
    - `Tokenize`, the main loop, is proved to collect exactly `Scan(w, 0)`;
    - `ParseLine` is proved equal to `Parsed`.
  - A renderer (`Quote`, `Render`, `Line`) writes a token list as a line.
    It is the inverse `parseline` is proved against.
- `Jobs` (`jobs.dfy`): the job list as values.
  - Pure functions state what each routine computes over the sequence of
    slots.
  - `Add`, `Delete`, `BgFg` and `Reap` are the state changes on a
    `Table(slots, nextjid)`.
  - Lemmas cover round trips and preserved invariants: well-formed slots,
    unique pids, and at most one foreground job.
- `JobTable` (`joblist.dfy`): the class `JobList`.
  - It holds the `array<Job>` of 16 slots and the `nextjid` field.
  - Each routine is a method with the C code's `for` loop, proved to agree
    with its function in `Jobs`.
  - `getjobpid` and `getjobjid` return a pointer into the array, or NULL. In
    the model they return `Option<nat>`: the slot's index, or `None`.

A job's `cmdline` is the text of its C string. Job states are the datatype
`JobState` (`Undef`, `Fg`, `Bg`, `St`), for UNDEF, FG, BG and ST. The status
`waitpid` reports is an abstract `ChildStatus` value: `Exited`, `Signaled` or
`Stopped`.

## Model

| member | source | states |
|---|---|---|
| CStrings.CLength | CaiShell.c:403 | strlen: the index of the first NUL; no earlier character is NUL |
| CStrings.MyStrchr | CaiShell.c:205-215 | myStrchr returns the smallest index holding ch, or -1 exactly when ch occurs nowhere up to and including the terminator |
| CStrings.StrChr | CaiShell.c:409-414 | strchr from an index: the first occurrence of c at or after it, or None (NULL) when there is none |
| CStrings.StrChrAt | CaiShell.c:409-414 | an occurrence of c with none before it is the one strchr returns |
| CStrings.IsSpace | CaiShell.c:547 | isspace in the C locale, the white space atoi skips (definition, no contract of its own) |
| CStrings.IsDigit | CaiShell.c:553 | isdigit: '0' to '9' (definition, no contract of its own) |
| CStrings.DigitsValue | CaiShell.c:547 | the value of a digit string, most significant digit first (definition; `DecimalValue` and `AtoiDecimal` are proved against it) |
| CStrings.Atoi | CaiShell.c:547 | atoi: skip white space, then read an optional sign and the digits (definition; `AtoiDigits`, `AtoiDecimal` and `Jobs.Target` are proved against it) |
| CStrings.Signed | CaiShell.c:554 | atoi after the white space: '-' negates the digit value, '+' is skipped, no digits give 0 (definition) |
| CStrings.DropSpaces | CaiShell.c:547 | atoi's leading white space: the result is a suffix, every dropped character is white space, and the result does not start with white space |
| CStrings.DigitPrefix | CaiShell.c:547 | atoi's digits: the longest prefix of decimal digits |
| CStrings.Decimal | CaiShell.c:547 | a decimal numeral is non-empty and made of digits |
| CStrings.DecimalValue | CaiShell.c:547 | the digits of a decimal numeral read back as its value |
| CStrings.AtoiDigits | CaiShell.c:553-554 | atoi of a string that starts with a digit reads its leading run of digits |
| CStrings.DigitPrefixOf | CaiShell.c:547 | the digit run of digits followed by a non-digit is exactly those digits |
| CStrings.AtoiDecimal | CaiShell.c:547 | atoi reads back n written in decimal, whatever non-digit follows it |
| Parse.Working | CaiShell.c:402-403 | parseline's copy of the line with its final character (the newline) made a space (definition; `WorkingLine` states it) |
| Parse.Scan | CaiShell.c:409-429 | the tokens read from an index: spaces skipped, a quote opens a token that ends at the next quote, anything else a token that ends at the next space, and a token with no delimiter ends the scan (reference definition; `Tokenize`, `ScanRenderable`, `ScanRender` and `UnclosedQuote` are proved against it) |
| Parse.IsBgMarker | CaiShell.c:436 | the test `*argv[argc - 1] == '&'`: the token's first character is '&' (definition) |
| Parse.Background | CaiShell.c:432-439 | parseline's ending (definition; `BackgroundSplit` states what it does) |
| Parse.Parsed | CaiShell.c:395-440 | what parseline computes: argv and the return value (definition; `ParseLine`, `BlankLine`, `ParseRender` are proved against it) |
| Parse.SkipSpaces | CaiShell.c:404-405 | the space-skipping loop skips only spaces, stops at the first non-space (or the end), and does not change the tokens still to be read |
| Parse.NextDelim | CaiShell.c:409-414 | at a token start, a quote opens a token that ends at the next quote and anything else a token that ends at the next space; no delimiter gives no more tokens |
| Parse.NextToken | CaiShell.c:404-414 | skipping spaces and then searching for the delimiter splits off the next token of `Scan`, or finds that there is none |
| Parse.Tokenize | CaiShell.c:416-429 | parseline's main loop collects exactly the tokens of `Scan` |
| Parse.ParseLine | CaiShell.c:395-440 | parseline (newline made a space, tokens collected, background flag settled) computes `Parsed` |
| Parse.BackgroundSplit | CaiShell.c:432-439 | the flag is true exactly for a blank line or a last token starting with '&', and only that token is removed |
| Parse.ScanRenderable | CaiShell.c:409-428 | every token is either bare (no space, not starting with a quote) or free of quotes |
| Parse.WordBare | CaiShell.c:413-414 | a word read up to the next space, not opening with a quote, is bare |
| Parse.InsideQuoteFree | CaiShell.c:410-411 | the inside of a quoted token holds no quote |
| Parse.ScanCount | CaiShell.c:416-428 | each token takes at least two characters of the line, so argc is at most half its length |
| Parse.ScanSpaces | CaiShell.c:404-405 | a run of spaces holds no token |
| Parse.ScanToken | CaiShell.c:409-421 | a token written bare or in quotes and followed by a space is read back alone, and scanning resumes after that space |
| Parse.ScanRender | CaiShell.c:416-429 | a written token list is read back token for token, followed by whatever comes after it |
| Parse.ScanLine | CaiShell.c:416-429 | the same, from the start of a line |
| Parse.ScanUnclosed | CaiShell.c:409-414 | an opening quote with no closing quote yields no token |
| Parse.UnclosedQuote | CaiShell.c:409-429 | an unmatched opening quote ends tokenization: it and everything after it are dropped |
| Parse.BlankLine | CaiShell.c:431-432 | a blank line yields no arguments and returns 1 |
| Parse.WorkingLine | CaiShell.c:402-403 | the copy of a line has its final newline replaced by a space |
| Parse.LineRenderable | CaiShell.c:436 | appending the "&" marker keeps a token list writable |
| Parse.ParseRender | CaiShell.c:395-440 | round trip: writing tokens (plus "&" for a background job) and parsing the line gives back the same tokens and flag |
| Jobs.FindFrom | CaiShell.c:753-754 | the slot scan from an index: the first matching slot, or None when none matches |
| Jobs.Find | CaiShell.c:765-767 | the first matching slot; None exactly when no slot matches |
| Jobs.FindFirst | CaiShell.c:765-767 | a matching slot with no earlier match is the one the scan finds |
| Jobs.MaxJidUpTo | CaiShell.c:701-703 | maxjid's loop after n slots: at least 0, at least each jid seen, and 0 or one of them |
| Jobs.MaxJidIn | CaiShell.c:698-705 | maxjid is the largest jid and at least 0: it is 0 or some slot's jid |
| Jobs.FgPidIn | CaiShell.c:750-757 | fgpid is the pid of the first FG slot, and 0 when there is none |
| Jobs.LookupPid | CaiShell.c:760-769 | getjobpid: NULL for pid < 1 or no match, otherwise the first slot with that pid |
| Jobs.LookupJid | CaiShell.c:772-781 | getjobjid: NULL for jid < 1 or no match, otherwise the first slot with that jid |
| Jobs.Pid2JidIn | CaiShell.c:784-794 | pid2jid: 0 for pid < 1 or no match, otherwise the jid of the first slot with that pid |
| Jobs.NextJid | CaiShell.c:718-720 | nextjid advances by one, wrapping to 1 exactly when it would exceed MAXJOBS |
| Jobs.Add | CaiShell.c:708-730 | addjob fails and changes nothing exactly when pid < 1 or no slot is free; otherwise only the first free slot changes, to the job under jid old nextjid, and nextjid advances |
| Jobs.Delete | CaiShell.c:733-747 | deletejob fails and changes nothing exactly when pid < 1 or no slot has that pid; otherwise only the first such slot is cleared, and nextjid is the largest remaining jid plus 1 |
| Jobs.SetState | CaiShell.c:568-571 | a state transition changes only the target slot's state; every other slot and field stays |
| Jobs.Target | CaiShell.c:546-562 | %n looks a job up by jid atoi(n), a leading digit by pid atoi, anything else is rejected; a failed lookup reports the number |
| Jobs.Resumption | CaiShell.c:567-571 | the state bg or fg gives: BG for "bg", FG for anything else (definition) |
| Jobs.BgFg | CaiShell.c:534-576 | do_bgfg without an argument reports it and changes nothing; otherwise the outcome is `Target`'s for argv[1], nothing changes unless a job is found, and only that job's state changes, to BG for bg and FG for fg |
| Jobs.Reap | CaiShell.c:609-620 | an exited or signalled child is deleted; a stopped child's job, if there is one, alone becomes ST |
| Jobs.ReapAll | CaiShell.c:607-624 | the loop over reported children applies the bookkeeping for each one in order; no report changes nothing |
| Jobs.Initial | CaiShell.c:44 | the initial list: 16 cleared slots and nextjid 1 |
| Jobs.InitialInv | CaiShell.c:44 | the initial list is well formed, with unique pids and no two FG jobs |
| Jobs.ClearedEmpty | CaiShell.c:690-705 | on cleared slots maxjid is 0, fgpid is 0 and getjobpid finds nothing |
| Jobs.FgPidZeroIffNoFg | CaiShell.c:750-757 | on a well-formed list fgpid is 0 exactly when no job is FG |
| Jobs.AddThenLookup | CaiShell.c:708-730 | after adding a new pid, getjobpid finds the slot addjob filled, holding that job, and pid2jid gives the jid assigned |
| Jobs.DeleteThenLookup | CaiShell.c:733-747 | with unique pids, after deletejob getjobpid finds nothing for that pid |
| Jobs.AddKeepsInv | CaiShell.c:708-730 | addjob keeps every slot cleared or live and nextjid at least 1 |
| Jobs.DeleteKeepsInv | CaiShell.c:733-747 | deletejob keeps the same invariant |
| Jobs.BgFgKeepsInv | CaiShell.c:534-576 | bg and fg keep every slot cleared or live |
| Jobs.ReapKeepsInv | CaiShell.c:609-620 | the bookkeeping for a reaped child keeps the invariant |
| Jobs.ReapAllKeepsInv | CaiShell.c:607-624 | the whole handler loop keeps the invariant |
| Jobs.AddKeepsPidsUnique | CaiShell.c:708-730 | adding a pid not yet present keeps pids unique |
| Jobs.DeleteKeepsPidsUnique | CaiShell.c:733-747 | deleting keeps pids unique |
| Jobs.AddKeepsOneFg | CaiShell.c:37 | adding a job keeps at most one FG job, when the new job is not FG or no job is FG |
| Jobs.DeleteKeepsOneFg | CaiShell.c:37 | deleting keeps at most one FG job |
| Jobs.BgFgKeepsOneFg | CaiShell.c:37 | bg keeps at most one FG job; so does fg when no job is FG |
| Jobs.ReapKeepsOneFg | CaiShell.c:37 | reaping a child keeps at most one FG job |
| Jobs.ReapAllKeepsOneFg | CaiShell.c:37 | the whole handler loop keeps at most one FG job |
| Jobs.BgFgByJid | CaiShell.c:546-551 | "bg %n" / "fg %n" sets the state of the job with jid n, or reports no such job |
| Jobs.BgFgByPid | CaiShell.c:553-558 | "bg n" / "fg n" sets the state of the job with pid n, or reports no such process |
| JobTable.JobList.constructor | CaiShell.c:44 | the array starts as 16 cleared slots and nextjid as 1 |
| JobTable.JobList.ClearJob | CaiShell.c:682-687 | clearjob resets slot i to `Jobs.Cleared` (pid 0, jid 0, UNDEF and an empty command line), and nothing else |
| JobTable.JobList.InitJobs | CaiShell.c:690-695 | initjobs clears every slot, after which maxjid is 0 |
| JobTable.JobList.MaxJid | CaiShell.c:698-705 | maxjid's loop computes `MaxJidIn` |
| JobTable.JobList.AddJob | CaiShell.c:708-730 | addjob's loop makes the new state and result exactly `Add`'s |
| JobTable.JobList.DeleteJob | CaiShell.c:733-747 | deletejob's loop makes the new state and result exactly `Delete`'s |
| JobTable.JobList.FgPid | CaiShell.c:750-757 | fgpid's loop computes `FgPidIn` |
| JobTable.JobList.GetJobPid | CaiShell.c:760-769 | getjobpid's loop computes `LookupPid` |
| JobTable.JobList.GetJobJid | CaiShell.c:772-781 | getjobjid's loop computes `LookupJid` |
| JobTable.JobList.Pid2Jid | CaiShell.c:784-794 | pid2jid's loop computes `Pid2JidIn` |
| JobTable.JobList.FindTarget | CaiShell.c:546-562 | do_bgfg's argument lookup computes `Target` |
| JobTable.JobList.DoBgFg | CaiShell.c:534-576 | do_bgfg's update of the array is exactly `BgFg` |
| JobTable.JobList.HandleChildStatus | CaiShell.c:609-620 | the bookkeeping for one reaped child is exactly `Reap` |
| JobTable.JobList.HandleChildren | CaiShell.c:607-624 | the handler's loop is exactly `ReapAll` over the reports in order |

## Left out

- Process control is not modelled: `fork`, `setpgid`, `execve`, `sigprocmask`, the
  `kill(-pid, SIGCONT)` in `do_bgfg`, and `waitpid`. Only their effect on the job list
  is modelled. The children `waitpid` reports are a parameter of `HandleChildren`.
- Signals are not modelled. The asynchronous delivery of `sigchld_handler`,
  `sigint_handler` and `sigtstp_handler` is concurrency, so every routine here runs
  sequentially. `waitfg` polls with `sleep(1)`, which is timing, so `fg`'s wait is
  left out.
- The `errno != ECHILD` check in `sigchld_handler` (line 622) is left out: it
  depends on libc's errno. The check sits inside the `while` loop, and a
  successful `waitpid` does not set errno. So unless errno already holds ECHILD,
  the shell exits through `unix_error` right after the first reaped child.
  `HandleChildren` and `ReapAll` over several reports describe only the case
  where errno holds ECHILD. With errno any other value, only the first report's
  bookkeeping happens before the exit.
- The `Stopped` branch of `sigchld_handler` is modelled as written. Whether
  `waitpid` with `WNOHANG` (and no `WUNTRACED`) ever reports a stopped child is OS
  behaviour and is not modelled.
- Printing and I/O are not modelled: every `printf`, `listjobs`, the verbose message
  in `addjob`, `usage`, `unix_error`, `app_error`, `Signal`, `sigquit_handler`,
  `main`'s read loop and `getopt`, and `eval`.
- `init`, `rebulid_command`, `alias_add` and `alias_free` are left out. They are
  syntactically broken as written, and `init` also reads a configuration file.
  `is_accessable` depends on the `access` system call. `test.c` is a separate
  fork/wait demonstration.
- Fixed-size buffers are not modelled. A command line is an unbounded sequence, so
  `MAXLINE` and `MAXARGS` overflow of `parseline`'s static buffer and of `argv` are
  left out. `Parse.ScanCount` bounds argc by half the line length.
- Parse.ParseLine: requires a non-empty line. The C code writes `buf[strlen(buf) - 1]`,
  which is undefined for an empty C string. A line read by `fgets` whose first byte
  is NUL gives such a string, and the model does not cover it.
- Parse.ParseLine: the line is the text of a C string. A NUL inside it would end
  `strcpy` and `strlen` early; the model treats every character as part of the line.
- Integer widths are unbounded. `pid_t` and `int` are integers, so `atoi` overflow and
  the wrap-around of `jid` values are not modelled.
- Jobs.Add: the C `state` argument is any `int`; the model takes one of the four
  `JobState` values.
- Jid uniqueness and jid bounds are deliberately not claimed. Wrapping `nextjid` to 1
  can reuse a live jid, and `deletejob` can set `nextjid` above `MAXJOBS`.
- Parse.Scan: a quoted token `''` yields an empty token, as the code does. No
  property says tokens are non-empty.
- CStrings.StrChr: only used on the text of a C string, which holds no NUL, with a
  non-NUL character; searching for the terminator is not modelled.
- JobTable.JobList.ClearJob: `clearjob` writes only the first byte of `cmdline`. The
  model's slot holds the C string's text, so the leftover bytes are not modelled.
