/** POSIX path handling as Python's `posixpath` does it, and the dated archive layout
    `<base>/Raw_Files/<YYYYMMDD>/<file>` that downloads are moved into. */
module Paths {

  const Sep: char := '/'

  /** Name of the archive root created under the base directory. */
  const RawFilesDir := "Raw_Files"

  predicate IsAbsolute(p: string) {
    |p| > 0 && p[0] == Sep
  }

  predicate HasNoSep(p: string) {
    forall i :: 0 <= i < |p| ==> p[i] != Sep
  }

  predicate EndsWithSep(p: string) {
    |p| > 0 && p[|p| - 1] == Sep
  }

  /** `os.path.join(a, b)`: an absolute `b` replaces `a`; otherwise one separator is inserted
      unless `a` is empty or already ends in one. */
  function Join(a: string, b: string): (r: string)
  {
    if IsAbsolute(b) then b
    else if a == [] || EndsWithSep(a) then a + b
    else a + [Sep] + b
  }

  /** Index of the last separator of `p`, or -1 when it has none (`p.rfind('/')`). */
  function LastSep(p: string): (i: int)
    ensures -1 <= i < |p|
    ensures i >= 0 ==> p[i] == Sep
    ensures forall j :: i < j < |p| ==> p[j] != Sep
  {
    if p == [] then -1
    else if p[|p| - 1] == Sep then |p| - 1
    else LastSep(p[..|p| - 1])
  }

  function StripTrailingSeps(p: string): (r: string)
    ensures |r| <= |p| && r == p[..|r|]
    ensures !EndsWithSep(r)
  {
    if EndsWithSep(p) then StripTrailingSeps(p[..|p| - 1]) else p
  }

  predicate AllSeps(p: string) {
    forall i :: 0 <= i < |p| ==> p[i] == Sep
  }

  /** `os.path.split(p)`: the head up to the last separator (trailing separators removed unless
      the head is all separators) and the tail after it. The partner of `Join`. */
  function Split(p: string): (r: (string, string))
  {
    var i := LastSep(p) + 1;
    var head := p[..i];
    var tail := p[i..];
    if head != [] && !AllSeps(head) then (StripTrailingSeps(head), tail) else (head, tail)
  }

  /** Splitting a joined path gives back its directory and its file name. */
  lemma SplitJoin(dir: string, name: string)
    requires dir != [] && !EndsWithSep(dir)
    requires name != [] && HasNoSep(name)
    ensures Split(Join(dir, name)) == (dir, name)
  {
    var p := Join(dir, name);
    assert p == dir + [Sep] + name;
    assert p[|dir|] == Sep;
    assert LastSep(p) == |dir|;
    var head := p[..|dir| + 1];
    assert head == dir + [Sep];
    assert head[|dir| - 1] != Sep;
    assert StripTrailingSeps(head) == StripTrailingSeps(dir);
  }

  /** The directory `<base>/Raw_Files/<folder>` that holds one day's downloads. */
  function ArchiveDir(base: string, folder: string): string {
    Join(Join(base, RawFilesDir), folder)
  }

  /** Under a base directory that does not end in a separator, a relative file name lands at
      `<base>/Raw_Files/<folder>/<name>`. */
  lemma ArchivePathLayout(base: string, folder: string, name: string)
    requires base != [] && !EndsWithSep(base)
    requires folder != [] && HasNoSep(folder)
    requires !IsAbsolute(name)
    ensures Join(ArchiveDir(base, folder), name) == base + "/Raw_Files/" + folder + "/" + name
  {
    var raw := Join(base, RawFilesDir);
    assert raw == base + "/Raw_Files";
    assert !EndsWithSep(raw);
    var dir := Join(raw, folder);
    assert dir == base + "/Raw_Files/" + folder;
    assert dir[|dir| - 1] == folder[|folder| - 1];
  }

  /** The archived file can be taken apart again: its directory is the dated archive folder and
      its base name is the name the download suggested. */
  lemma ArchivePathSplits(base: string, folder: string, name: string)
    requires base != [] && !EndsWithSep(base)
    requires folder != [] && HasNoSep(folder)
    requires name != [] && HasNoSep(name)
    ensures Split(Join(ArchiveDir(base, folder), name)) == (ArchiveDir(base, folder), name)
  {
    ArchivePathLayout(base, folder, name);
    var dir := ArchiveDir(base, folder);
    assert dir == base + "/Raw_Files/" + folder;
    assert dir[|dir| - 1] == folder[|folder| - 1];
    SplitJoin(dir, name);
  }
}
