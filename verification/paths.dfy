/** The parts of `pathlib` the core uses: a path is a directory and a final
    component `name`; `stem` and `suffix` split the name at its last dot. */
module Paths {
  import opened Wrappers

  datatype FilePath = FilePath(dir: string, name: string)

  /** `name.rfind('.')`, as an Option. */
  function LastDot(name: string): (r: Option<nat>)
    ensures r.Some? ==> r.value < |name| && name[r.value] == '.'
    ensures r.Some? ==> forall j :: r.value < j < |name| ==> name[j] != '.'
    ensures r.None? ==> forall j :: 0 <= j < |name| ==> name[j] != '.'
    decreases |name|
  {
    if name == [] then None
    else if name[|name| - 1] == '.' then Some(|name| - 1)
    else LastDot(name[..|name| - 1])
  }

  /** pathlib's rule: the last dot starts a suffix only when it is neither the
      first nor the last character of the name. */
  predicate HasSuffix(name: string) {
    var d := LastDot(name);
    d.Some? && 0 < d.value < |name| - 1
  }

  /** `PurePath.suffix`. */
  function Suffix(name: string): string {
    if HasSuffix(name) then name[LastDot(name).value..] else ""
  }

  /** `PurePath.stem`. */
  function Stem(name: string): string {
    if HasSuffix(name) then name[..LastDot(name).value] else name
  }

  /** Stem and suffix split the name without losing anything. */
  lemma StemSuffixSplit(name: string)
    ensures Stem(name) + Suffix(name) == name
  {
  }

  /** A non-empty base followed by a dotted extension without further dots
      splits back into that base and that extension. */
  lemma StemOfExtension(base: string, ext: string)
    requires base != [] && |ext| >= 2 && ext[0] == '.'
    requires forall j :: 1 <= j < |ext| ==> ext[j] != '.'
    ensures Stem(base + ext) == base && Suffix(base + ext) == ext
  {
    var n := base + ext;
    assert n[|base|] == '.';
    LastDotAt(n, |base|);
  }

  lemma LastDotAt(name: string, i: nat)
    requires i < |name| && name[i] == '.'
    requires forall j :: i < j < |name| ==> name[j] != '.'
    ensures LastDot(name) == Some(i)
    decreases |name|
  {
    if i < |name| - 1 {
      LastDotAt(name[..|name| - 1], i);
    }
  }
}
