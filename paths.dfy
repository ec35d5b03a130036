/**
 * The file-system names derived from a project name: the name is lower-cased
 * and every space becomes a hyphen, and the result is joined onto the
 * configured projects directory (src/project.py:266, src/filesystem/read_code.py:19).
 * Lower-casing is modelled over ASCII only.
 */
module Paths {

  /** ASCII lower-casing of a single character. */
  function LowerChar(c: char): char {
    if 'A' <= c <= 'Z' then (c as int + 32) as char else c
  }

  /** `s.lower()`: every character lower-cased, nothing else changed. */
  function Lower(s: string): (r: string)
    ensures |r| == |s|
    ensures forall i :: 0 <= i < |s| ==> r[i] == LowerChar(s[i])
  {
    if s == [] then [] else [LowerChar(s[0])] + Lower(s[1..])
  }

  /** `s.replace(" ", "-")`: every space becomes a hyphen, nothing else changed. */
  function ReplaceSpaces(s: string): (r: string)
    ensures |r| == |s|
    ensures forall i :: 0 <= i < |s| ==> r[i] == if s[i] == ' ' then '-' else s[i]
  {
    if s == [] then [] else [if s[0] == ' ' then '-' else s[0]] + ReplaceSpaces(s[1..])
  }

  /** `name.lower().replace(" ", "-")`, the directory name of a project. */
  function Slug(name: string): (r: string)
    ensures |r| == |name|
    ensures forall i :: 0 <= i < |r| ==> r[i] != ' ' && !('A' <= r[i] <= 'Z')
    ensures forall i :: 0 <= i < |r| ==> r[i] == if name[i] == ' ' then '-' else LowerChar(name[i])
  {
    ReplaceSpaces(Lower(name))
  }

  /** Normalising a normalised name changes nothing. */
  lemma SlugIdempotent(name: string)
    ensures Slug(Slug(name)) == Slug(name)
  {
    var once := Slug(name);
    var twice := Slug(once);
    forall i | 0 <= i < |once|
      ensures twice[i] == once[i]
    {
      assert once[i] != ' ' && !('A' <= once[i] <= 'Z');
    }
  }

  /**
   * `os.path.join(base, part)` for two components, as POSIX does it: an
   * absolute `part` discards `base`; otherwise a separator is inserted unless
   * `base` is empty or already ends with one.
   */
  function Join(base: string, part: string): (r: string)
    ensures |part| <= |r| && r[|r| - |part|..] == part
    ensures (part == [] || part[0] != '/') ==> |base| <= |r| && r[..|base|] == base
    ensures (part != [] && part[0] == '/') ==> r == part
  {
    if part != [] && part[0] == '/' then part
    else if base == [] || base[|base| - 1] == '/' then base + part
    else base + "/" + part
  }
}
