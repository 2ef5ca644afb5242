/**
 `process_file` (trimeol.py): trim the path, skip binary files, read and
 normalise the text, skip it when nothing changed, otherwise write it back
 through `write_data`.

 Everything outside the model is a parameter of `Env`: whether the probe
 is in use and what it answers, whether opening the file for the heuristic
 raises, the bytes the heuristic reads, whether reading in text mode
 raises, and which step of the write fails.
 */
module TrimEol {
  import opened BinaryCheck
  import opened Strip
  import opened Lines
  import opened Normalize
  import opened AtomicWrite

  /** How handling one file ends. `Raised` is the exception from opening the
      file for the heuristic (missing, unreadable, ...), which is raised
      outside the `try` and escapes `process_file`. */
  datatype Outcome = Rewritten | SkippedBinary | NoChanges | ReadFailed | WriteFailed | Raised

  /** The value `process_file` returns for an outcome: 0 on success, -1 for
      every skip and every error. */
  function ReturnCode(o: Outcome): (code: int)
    requires !o.Raised?
    ensures code == 0 || code == -1
    ensures code == 0 <==> o == Rewritten
  {
    match o
    case Rewritten => 0
    case _ => -1
  }

  /** The world around one call. `useFileCommand` is the module flag of
      binarycheck.py (never cleared by the code), `probeSaysBinary` what the
      `file` probe answers, `openFails` whether opening an existing file in
      binary mode for the heuristic raises (a permission error, say), `raw`
      the bytes a binary-mode read returns, `readFails` whether the
      text-mode read raises `IOError`. */
  datatype Env = Env(
    useFileCommand: bool,
    probeSaysBinary: bool,
    openFails: bool,
    raw: seq<Byte>,
    readFails: bool,
    fault: Fault)

  /** How "something changed" is decided: by length, as the code does, or by
      content, as the comment at trimeol.py:62 means. */
  datatype ChangeCheck = ByLength | ByContent

  predicate NeedsRewrite(check: ChangeCheck, content: string)
  {
    match check
    case ByLength => LengthChanged(content)
    case ByContent => ContentChanged(content)
  }

  datatype Processed = Processed(outcome: Outcome, fs: FileSystem)

  /** `process_file(name)` with the given change check. */
  function ProcessFileWith(check: ChangeCheck, name: string, fs: FileSystem, env: Env): (r: Processed)
    ensures r.outcome == Raised <==>
      (TrimPath(name) !in fs || env.openFails) && !(env.useFileCommand && env.probeSaysBinary)
    ensures r.outcome == Rewritten <==>
      && TrimPath(name) in fs
      && !env.openFails
      && !IsBinaryFile(env.useFileCommand, env.probeSaysBinary, env.raw)
      && !env.readFails
      && NeedsRewrite(check, fs[TrimPath(name)])
      && env.fault == NoFault
    ensures r.outcome == SkippedBinary <==>
      && IsBinaryFile(env.useFileCommand, env.probeSaysBinary, env.raw)
      && !((TrimPath(name) !in fs || env.openFails) && !(env.useFileCommand && env.probeSaysBinary))
    ensures r.outcome == ReadFailed <==>
      && TrimPath(name) in fs
      && !env.openFails
      && !IsBinaryFile(env.useFileCommand, env.probeSaysBinary, env.raw)
      && env.readFails
    ensures r.outcome == NoChanges <==>
      && TrimPath(name) in fs
      && !env.openFails
      && !IsBinaryFile(env.useFileCommand, env.probeSaysBinary, env.raw)
      && !env.readFails
      && !NeedsRewrite(check, fs[TrimPath(name)])
    ensures r.outcome == WriteFailed <==>
      && TrimPath(name) in fs
      && !env.openFails
      && !IsBinaryFile(env.useFileCommand, env.probeSaysBinary, env.raw)
      && !env.readFails
      && NeedsRewrite(check, fs[TrimPath(name)])
      && env.fault != NoFault
    ensures env.useFileCommand && env.probeSaysBinary ==> r.outcome == SkippedBinary
    ensures TrimPath(name) in fs && !env.openFails && IsBinaryFileH(env.raw) ==> r.outcome == SkippedBinary
    ensures r.outcome == SkippedBinary ==> r.fs == fs
    ensures r.outcome !in {Rewritten, WriteFailed} ==> r.fs == fs
    ensures OthersUnchanged(fs, r.fs, TrimPath(name))
    ensures r.outcome == Rewritten ==>
      r.fs == (fs - {TmpPath(TrimPath(name))})[TrimPath(name) := NormalizeContent(fs[TrimPath(name)])]
    ensures r.outcome == WriteFailed && env.fault != RenameFails ==>
      DestUnchanged(fs, r.fs, TrimPath(name))
    ensures r.outcome == WriteFailed && env.fault == RenameFails ==>
      && TrimPath(name) !in r.fs
      && TmpPath(TrimPath(name)) in r.fs
      && r.fs[TmpPath(TrimPath(name))] == NormalizeContent(fs[TrimPath(name)])
  {
    var fname := TrimPath(name);
    if (fname !in fs || env.openFails) && !(env.useFileCommand && env.probeSaysBinary) then Processed(Raised, fs)
    else if IsBinaryFile(env.useFileCommand, env.probeSaysBinary, env.raw) then Processed(SkippedBinary, fs)
    else if env.readFails then Processed(ReadFailed, fs)
    else
      var content := fs[fname];
      if !NeedsRewrite(check, content) then Processed(NoChanges, fs)
      else
        var data := NormalizeContent(content);
        var e := WriteData(fs, data, fname, env.fault);
        if e.status == 0 then
          WriteDataSuccess(fs, data, fname);
          Processed(Rewritten, e.fs)
        else Processed(WriteFailed, e.fs)
  }

  /** `process_file` as written: a file is rewritten only when its length changes. */
  function ProcessFile(name: string, fs: FileSystem, env: Env): Processed
  {
    ProcessFileWith(ByLength, name, fs, env)
  }

  /** `process_file` with the change test it is meant to make. */
  function ProcessFileFixed(name: string, fs: FileSystem, env: Env): Processed
  {
    ProcessFileWith(ByContent, name, fs, env)
  }

  /** A text file that needs no work is left alone, and reported as such. */
  lemma CleanFileUntouched(check: ChangeCheck, name: string, fs: FileSystem, env: Env)
    requires TrimPath(name) in fs && NormalizeContent(fs[TrimPath(name)]) == fs[TrimPath(name)]
    requires !IsBinaryFile(env.useFileCommand, env.probeSaysBinary, env.raw)
    requires !env.openFails && !env.readFails
    ensures ProcessFileWith(check, name, fs, env) == Processed(NoChanges, fs)
  {
  }

  /** An empty file is never written. */
  lemma EmptyFileUntouched(check: ChangeCheck, name: string, fs: FileSystem, env: Env)
    requires TrimPath(name) in fs && fs[TrimPath(name)] == []
    requires !IsBinaryFile(env.useFileCommand, env.probeSaysBinary, env.raw)
    requires !env.openFails && !env.readFails
    ensures ProcessFileWith(check, name, fs, env) == Processed(NoChanges, fs)
  {
    OutputTerminated([]);
  }

  /** A file with a NUL byte among its first 1024 bytes is skipped and left
      untouched, whatever the probe says. */
  lemma NulFileSkipped(check: ChangeCheck, name: string, fs: FileSystem, env: Env, i: nat)
    requires TrimPath(name) in fs && !env.openFails
    requires i < |env.raw| && i < ChunkSize && env.raw[i] == 0
    ensures ProcessFileWith(check, name, fs, env) == Processed(SkippedBinary, fs)
  {
    NulInPrefixIsBinary(env.raw, i);
  }

  /** Running `process_file` again on a file it has just rewritten finds
      nothing to do, under either change test, provided the second run still
      classifies the file as text and can open and read it. */
  lemma SecondRunNoChanges(check: ChangeCheck, name: string, fs: FileSystem, env: Env, env2: Env)
    requires ProcessFileWith(check, name, fs, env).outcome == Rewritten
    requires !IsBinaryFile(env2.useFileCommand, env2.probeSaysBinary, env2.raw)
    requires !env2.openFails && !env2.readFails
    ensures
      var fs1 := ProcessFileWith(check, name, fs, env).fs;
      ProcessFileWith(check, name, fs1, env2) == Processed(NoChanges, fs1)
  {
    NormalizeIdempotent(fs[TrimPath(name)]);
  }

  /** The length test misses a change: "x \ny" keeps its trailing blank and
      the file is reported as needing no changes. */
  lemma LengthCheckSkipsChangedFile(name: string, fs: FileSystem, env: Env)
    requires TrimPath(name) in fs && fs[TrimPath(name)] == "x \ny"
    requires !IsBinaryFile(env.useFileCommand, env.probeSaysBinary, env.raw)
    requires !env.openFails && !env.readFails
    ensures ProcessFile(name, fs, env) == Processed(NoChanges, fs)
    ensures NormalizeContent(fs[TrimPath(name)]) != fs[TrimPath(name)]
  {
    LengthCheckMissesChange();
  }

  /** With the content test every text file that is not normalised is
      rewritten, and after a fault-free run the file is normalised. */
  lemma FixedCheckNormalizesEveryFile(name: string, fs: FileSystem, env: Env)
    requires TrimPath(name) in fs
    requires !IsBinaryFile(env.useFileCommand, env.probeSaysBinary, env.raw)
    requires !env.openFails && !env.readFails
    requires env.fault == NoFault
    ensures ProcessFileFixed(name, fs, env).outcome == Rewritten <==> ContentChanged(fs[TrimPath(name)])
    ensures
      var r := ProcessFileFixed(name, fs, env);
      TrimPath(name) in r.fs && NormalizeContent(r.fs[TrimPath(name)]) == r.fs[TrimPath(name)]
  {
    NormalizeIdempotent(fs[TrimPath(name)]);
  }

  /** On a file that is empty or ends in a line feed the code as written and
      the fixed version behave the same. */
  lemma ChecksAgreeOnTerminatedFiles(name: string, fs: FileSystem, env: Env)
    requires TrimPath(name) in fs
    requires fs[TrimPath(name)] == [] || fs[TrimPath(name)][|fs[TrimPath(name)]| - 1] == '\n'
    ensures ProcessFile(name, fs, env) == ProcessFileFixed(name, fs, env)
  {
    LengthCheckSound(fs[TrimPath(name)]);
  }

  /** Rewriting can turn the heuristic's verdict: "\n\nab" has two control
      and two other bytes and is text, so it is rewritten; the result
      "\n\nab\n" has three control bytes and is skipped as binary when
      `process_file` runs on it again. */
  lemma SecondRunCanSkipAsBinary(check: ChangeCheck, name: string, fs: FileSystem, env: Env, env2: Env)
    requires TrimPath(name) in fs && fs[TrimPath(name)] == "\n\nab"
    requires env.raw == [10, 10, 97, 98] && env2.raw == [10, 10, 97, 98, 10]
    requires !(env.useFileCommand && env.probeSaysBinary)
    requires !env.openFails && !env.readFails && env.fault == NoFault && !env2.openFails
    ensures ProcessFileWith(check, name, fs, env).outcome == Rewritten
    ensures
      var fs1 := ProcessFileWith(check, name, fs, env).fs;
      ProcessFileWith(check, name, fs1, env2) == Processed(SkippedBinary, fs1)
  {
    var fname := TrimPath(name);
    FinalLineFeedAdded();
    LineFeedTipsVerdict();
    assert LengthChanged(fs[fname]) && ContentChanged(fs[fname]);
    var r1 := ProcessFileWith(check, name, fs, env);
    assert r1.outcome == Rewritten;
    assert fname in r1.fs;
  }
}
