/**
 Right-stripping of strings, the `str.rstrip(chars)` used by trimeol.py on
 the path it is given and on every line it reads.
 */
module Strip {

  /** Characters removed from the end of the path argument. */
  const PathTrimChars: set<char> := {' ', '\t', '\n', '\r'}

  /** `s.rstrip(chars)`: `s` without its longest suffix made of `chars`. */
  function RStrip(s: string, chars: set<char>): (r: string)
    ensures |r| <= |s| && r == s[..|r|]
    ensures r == [] || r[|r| - 1] !in chars
    ensures forall i | |r| <= i < |s| :: s[i] in chars
    decreases |s|
  {
    if s == [] || s[|s| - 1] !in chars then s
    else RStrip(s[..|s| - 1], chars)
  }

  /** The three properties in the contract of `RStrip` determine its result:
      any prefix of `s` that keeps them is `RStrip(s, chars)`. */
  lemma RStripUnique(s: string, chars: set<char>, p: string)
    requires |p| <= |s| && p == s[..|p|]
    requires p == [] || p[|p| - 1] !in chars
    requires forall i | |p| <= i < |s| :: s[i] in chars
    ensures p == RStrip(s, chars)
  {
  }

  /** Stripping twice is stripping once. */
  lemma RStripIdempotent(s: string, chars: set<char>)
    ensures RStrip(RStrip(s, chars), chars) == RStrip(s, chars)
  {
  }

  /** The path actually used by `process_file`. */
  function TrimPath(name: string): (fname: string)
    ensures |fname| <= |name| && fname == name[..|fname|]
    ensures fname == [] || fname[|fname| - 1] !in PathTrimChars
    ensures forall i | |fname| <= i < |name| :: name[i] in PathTrimChars
  {
    RStrip(name, PathTrimChars)
  }

  /** Trimming an already trimmed path changes nothing. */
  lemma TrimPathIdempotent(name: string)
    ensures TrimPath(TrimPath(name)) == TrimPath(name)
  {
    RStripIdempotent(name, PathTrimChars);
  }
}
