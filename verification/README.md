# trimeol in Dafny

A model of `trimeol`, a small utility that strips trailing spaces and tabs
from every line of text files and rewrites each file in place, leaving alone
files it takes to be binary.

The model has six modules:

- `BinaryCheck` (binarycheck.py): the control-byte test, the control-byte
  count, the heuristic over the first 1024 bytes, and `is_binary_file`. The
  external `file` probe is a boolean parameter.
- `Strip`: `str.rstrip` on a set of characters, and the path trim of
  `process_file`.
- `Lines`: the lines a text-mode file iteration yields, `SplitLines`, and
  their concatenation `Join`. Splitting and joining are proved inverse.
- `Normalize`: the per-line rewrite `line.rstrip(' \t\n') + '\n'`, the
  reading loop, and the length-based change test.
- `AtomicWrite`: `write_data` as a state machine over a file system. The
  file system is a map from path to text. Its phases are open, write, sync,
  remove destination, rename, with an injectable fault at each. An invariant
  holds in every phase: the destination holds its old content, or is absent
  while `destination + ".tmp"` holds the complete data, or holds the data.
- `TrimEol`: `process_file` as one pure function from the path, the file
  system and an environment to an outcome and the new file system. The
  environment holds whether the `file` probe is in use
  (`g_use_file_command`) and what it answers, whether opening the file for
  the heuristic raises, the raw bytes the heuristic reads, whether the
  text-mode read raises, and which step of the write fails.

Points where the code's behaviour is easy to misread:

- A control byte is any byte below 33, so tab, line feed, carriage return
  and space all count as control bytes.
- `write_data` removes the destination, then renames the temporary file
  onto it, once.
- The module flag `g_use_file_command` is never cleared. The assignment in
  the `except` branch of `is_binary_file_f` creates a local variable. So the
  flag is a plain parameter and never changes.
- Lines are stripped of `' \t\n'`, not of `'\r'`.
- The change test compares lengths. That stands in for a content
  comparison only when the file is empty or ends in a line feed (see
  Findings).
- Opening the file for the heuristic (binarycheck.py:34) happens outside
  the `try` of `process_file`. If the file is missing or cannot be opened,
  the exception escapes; the model calls this outcome `Raised`. It happens
  only when the probe has not already answered "binary".

## Model

| member | source | states |
|---|---|---|
| BinaryCheck.IsControlChar | binarycheck.py:66-76 | for a byte value, the code is a control code exactly when it is below 33 |
| BinaryCheck.WhitespaceIsControl | binarycheck.py:66-76 | space, tab, LF and CR are control bytes and `!` is not |
| BinaryCheck.ControlCount | binarycheck.py:78-84 | the control count of a byte sequence never exceeds its length |
| BinaryCheck.ControlCharCount | binarycheck.py:78-84 | the counting loop returns the control count of the whole input |
| BinaryCheck.ControlCountEmpty | binarycheck.py:78-84 | the empty sequence has no control bytes |
| BinaryCheck.ControlCountAppend | binarycheck.py:78-84 | the count of a concatenation is the sum of the counts |
| BinaryCheck.ControlCountZero | binarycheck.py:78-84 | the count is 0 exactly when every byte is at least 33 |
| BinaryCheck.ControlCountFull | binarycheck.py:78-84 | the count equals the length exactly when every byte is below 33 |
| BinaryCheck.Chunk | binarycheck.py:34-35 | the heuristic sees the first 1024 bytes, or the whole file when it is shorter |
| BinaryCheck.EmptyIsText | binarycheck.py:37-38 | an empty file is text |
| BinaryCheck.NulInPrefixIsBinary | binarycheck.py:34-41 | a NUL byte among the first 1024 bytes makes the file binary |
| BinaryCheck.ThresholdRule | binarycheck.py:43-45 | for a non-empty NUL-free chunk, binary exactly when control bytes are more than half |
| BinaryCheck.PrintableIsText | binarycheck.py:37-45 | a chunk of bytes all at least 33 is text |
| BinaryCheck.ControlOnlyIsBinary | binarycheck.py:37-45 | a non-empty chunk of bytes all below 33 is binary |
| BinaryCheck.TrailingBytesIgnored | binarycheck.py:34-35 | bytes after the first 1024 never change the heuristic's answer |
| BinaryCheck.SamePrefixSameVerdict | binarycheck.py:34-35 | files equal on their first 1024 bytes (or entirely, if shorter) get the same answer |
| BinaryCheck.ProbeOffIsHeuristic | binarycheck.py:14-18 | with the probe flag off the answer is the heuristic's |
| BinaryCheck.TextNeedsBothOpinions | binarycheck.py:14-21 | text only when neither the probe nor the heuristic says binary; a probe "text" never overrides the heuristic |
| BinaryCheck.LineFeedTipsVerdict | binarycheck.py:37-45 | one added line feed can turn the verdict: LF LF a b is text, LF LF a b LF is binary |
| Strip.RStrip | trimeol.py:46 | the result is a prefix of the input that does not end in a stripped character, and everything removed is a stripped character |
| Strip.RStripUnique | trimeol.py:46 | those three properties determine the result: any prefix with them is the stripped string |
| Strip.RStripIdempotent | trimeol.py:46 | stripping twice equals stripping once |
| Strip.TrimPath | trimeol.py:46 | the path used is a prefix of the argument with no trailing space, tab, CR or LF, and only those were removed |
| Strip.TrimPathIdempotent | trimeol.py:46 | trimming a trimmed path changes nothing |
| Lines.JoinAppend | trimeol.py:58-60 | concatenation of lines distributes over appending line sequences |
| Lines.JoinLast | trimeol.py:56-60 | joined non-empty lines are empty only for no lines, and end with the last line's last character |
| Lines.LineEnd | trimeol.py:55-56 | a line ends just after the first line feed, or at the end of the text |
| Lines.SplitLines | trimeol.py:55-56 | the lines of a text are well split (non-empty, inner lines end in LF, no other LF) and join back to the text |
| Lines.FirstLine | trimeol.py:55-56 | a terminated line, or one followed by nothing, is read back as the first line |
| Lines.SplitJoin | trimeol.py:55-56 | splitting the join of well-split lines gives the same lines |
| Normalize.NormalizeLine | trimeol.py:58-60 | the new line ends in one LF with no space, tab or LF before it, keeps a prefix of the old line, and drops only spaces, tabs and LFs |
| Normalize.NormalizeLineFixpoint | trimeol.py:58-60 | a line is unchanged exactly when it is already clean |
| Normalize.NormalizeLineLength | trimeol.py:57-60 | on an LF-terminated line the length never grows, and is kept only when the line is |
| Normalize.ReadOneMore | trimeol.py:57-60 | reading one more line adds its length to the original length and its normal form to the data |
| Normalize.ReadNormalized | trimeol.py:55-60 | the loop builds the normalised lines' concatenation and the original length |
| Normalize.NormalizeCons | trimeol.py:58-60 | the output is the first line normalised followed by the rest normalised |
| Normalize.OutputLines | trimeol.py:56-60 | the lines of the output are exactly the normalised input lines, in order |
| Normalize.OutputClean | trimeol.py:56-60 | every output line ends in exactly one LF with no space or tab before it |
| Normalize.OutputTerminated | trimeol.py:47-60 | the output is empty only for an empty file, and otherwise ends in LF |
| Normalize.NormalizeIdempotent | trimeol.py:56-64 | normalising the output again gives the output |
| Normalize.TerminatedLengths | trimeol.py:57-62 | for LF-terminated lines the total length never grows, and equal lengths mean equal texts |
| Normalize.LengthChangeIsChange | trimeol.py:62 | a length change is always a content change |
| Normalize.LengthCheckSound | trimeol.py:57-64 | for an empty or LF-terminated text, lengths differ exactly when contents differ |
| Normalize.LengthCheckMissesChange | trimeol.py:57-64 | "x \ny" normalises to "x\ny\n": same length, different text |
| Normalize.FinalLineFeedAdded | trimeol.py:56-60 | "\n\nab" normalises to "\n\nab\n" |
| Normalize.StripsBlanksAndTabs | trimeol.py:56-60 | "foo \nbar\t\n" normalises to "foo\nbar\n" |
| AtomicWrite.TmpPath | trimeol.py:76 | the temporary path is the destination plus ".tmp", never the destination itself |
| AtomicWrite.Step | trimeol.py:78-84 | every step moves the writer strictly closer to its end |
| AtomicWrite.Run | trimeol.py:78-87 | the writer always stops, succeeded or failed |
| AtomicWrite.StepKeepsInv | trimeol.py:78-87 | each step keeps the invariant: destination old, absent with complete tmp, or new; other paths untouched |
| AtomicWrite.RunKeepsInv | trimeol.py:78-87 | the invariant holds when the writer stops |
| AtomicWrite.RunStops | trimeol.py:78-89 | the writer stops at the injected fault, fails at the removal when the destination is missing, and otherwise succeeds |
| AtomicWrite.WriteData | trimeol.py:71-89 | returns 0 exactly when no fault is injected and the destination exists; on success the destination holds the data and tmp is gone; a failure before the rename, including a failed removal of a missing destination, leaves the destination as it was; a failed rename leaves the destination absent and tmp holding the data; no other path changes |
| AtomicWrite.WriteDataSuccess | trimeol.py:76-89 | a successful write yields exactly the old file system minus tmp, with the destination set to the data |
| TrimEol.ReturnCode | trimeol.py:41-69 | `process_file` returns 0 exactly for a rewritten file, and -1 otherwise |
| TrimEol.ProcessFileWith | trimeol.py:41-69 | each outcome is characterised exactly by its inputs: the open for the heuristic raising (missing or unopenable file) escapes unless the probe already said binary; otherwise a binary verdict skips, a failing text read gives the read error, an unneeded rewrite gives "no changes", and a needed one is rewritten or fails with the write fault; binary, unchanged and unreadable files are not touched; the file system changes only at the path and its tmp |
| TrimEol.CleanFileUntouched | trimeol.py:62-64 | an already normalised text file is reported unchanged and not written |
| TrimEol.EmptyFileUntouched | trimeol.py:47-64 | an empty file is reported unchanged and not written |
| TrimEol.NulFileSkipped | trimeol.py:50-52 | a file with a NUL among its first 1024 bytes is skipped and not touched, whatever the probe says |
| TrimEol.SecondRunNoChanges | trimeol.py:56-66 | if the second run still classifies the just-rewritten file as text and can open and read it, it reports no changes and writes nothing |
| TrimEol.SecondRunCanSkipAsBinary | trimeol.py:50-66 | a file holding "\n\nab" is rewritten as text, and the rewritten file is then skipped as binary |
| TrimEol.LengthCheckSkipsChangedFile | trimeol.py:57-64 | as written, a file holding "x \ny" is reported unchanged although its normal form differs |
| TrimEol.FixedCheckNormalizesEveryFile | trimeol.py:62-66 | with a content test, a text file is rewritten exactly when it is not normalised, and is normalised afterwards |
| TrimEol.ChecksAgreeOnTerminatedFiles | trimeol.py:57-64 | on empty or LF-terminated files the length test and the content test give the same result |

## Left out

- TrimEol.SecondRunNoChanges: carries the premise that the second run
  still classifies the file as text. The bytes the heuristic reads are a
  parameter, not derived from the text, and rewriting can turn the verdict
  to binary: "\n\nab" is text, its rewrite "\n\nab\n" is binary
  (TrimEol.SecondRunCanSkipAsBinary).
- The `file` probe (binarycheck.py:47-64) is not modelled. It runs a
  subprocess, so its verdict is a boolean parameter. Under Python 3 its
  output lines are bytes, and `"text" in line.lower()` raises `TypeError`.
  The bare `except` catches that and answers "not binary".
- Clearing the probe flag after a failed probe is not modelled. The code
  never does it, because the assignment at binarycheck.py:62 lacks `global`.
- The `TypeError` of `ord()` on the integers a Python 3 `bytes` iteration
  yields (binarycheck.py:74) is not modelled. The model counts over byte
  values, as the docstrings describe.
- Real file I/O is not modelled: `open`, buffering, `fsync`, durability, and
  what `os.remove`/`os.rename` do on a given platform. The file system is a
  map from path to text, and every failure is an injected fault.
- Text decoding and universal-newline translation (CRLF or CR to LF) are done
  by `open`, not by this code. The model starts from the decoded text. The
  heuristic's bytes are a separate parameter, because the model has no
  encoding that links the two views.
- A `UnicodeDecodeError` during the text read is not `IOError` and would
  escape. Decoding is outside the model, so that case is not modelled.
- CLI glue is not modelled: `usage`, `main`, stdin pipe detection,
  `time.clock` timing and the summary count (trimeol.py:91-115).
- Printed messages are not modelled. Only the outcome and the return code are.
- A failing `write` leaves a prefix of the data in the temporary file. How much is written is part of the fault; the model does
  not derive it from buffering.

## Findings

| source | as written | input that shows it | evidently intended | confidence | as-written member | corrected member |
|---|---|---|---|---|---|---|
| trimeol.py:57-64 | the file is rewritten only when the total length changes | a file holding `"x \ny"`: stripping the blank and adding the final line feed keeps the length at 4, so the file is skipped with its trailing blank | rewrite whenever the normalised text differs from the file | high, not executed | TrimEol.LengthCheckSkipsChangedFile | TrimEol.FixedCheckNormalizesEveryFile |
