/** Path helpers of Go's `path/filepath`, lexically and with '/' as the
    only separator. */
module Paths {
  import opened Text

  /** `filepath.Join(dir, rel)` for a relative `rel` without dot elements.
      Go also cleans the joined path lexically; on a directory already in
      canonical form (no doubled slash, no `.` or `..` element) that
      cleaning changes nothing, and that is the only case modelled. */
  function Join(dir: string, rel: string): string {
    if dir == "" then rel
    else if dir[|dir| - 1] == '/' then dir + rel
    else dir + "/" + rel
  }

  /** The last element of a slash-separated string: the text after the
      last '/'. */
  function LastElement(t: string): (r: string)
    ensures '/' !in r
    ensures |r| <= |t| && r == t[|t| - |r|..]
    ensures |r| < |t| ==> t[|t| - |r| - 1] == '/'
    decreases |t|
  {
    if |t| == 0 || t[|t| - 1] == '/' then ""
    else LastElement(t[..|t| - 1]) + [t[|t| - 1]]
  }

  /** `filepath.Base`: "." for the empty path, "/" for a path of slashes
      only, otherwise the last element once trailing slashes are dropped. */
  function Base(p: string): (r: string)
    ensures r != ""
    ensures r == "/" || '/' !in r
    ensures p != "" && p[|p| - 1] != '/' ==>
      |r| <= |p| && r == p[|p| - |r|..] && (|r| < |p| ==> p[|p| - |r| - 1] == '/')
  {
    if p == "" then "."
    else
      var t := TrimRightWhere(p, c => c == '/');
      if t == "" then "/" else LastElement(t)
  }

  /** The base name of a path ending in a slash-free element is that
      element. */
  lemma BaseOfJoined(dir: string, name: string)
    requires name != "" && '/' !in name
    ensures Base(dir + "/" + name) == name
  {
    var p := dir + "/" + name;
    assert p[|p| - 1] == name[|name| - 1];
    var t := TrimRightWhere(p, c => c == '/');
    assert t == p;
    var r := LastElement(p);
    assert forall k :: |p| - |name| <= k < |p| ==> p[k] == name[k - (|p| - |name|)] != '/';
    assert p[|p| - |name| - 1] == '/';
    assert |r| == |name|;
    assert p[|p| - |name|..] == name;
  }

  /** What `Join` puts in front of its second argument. */
  function JoinHead(dir: string): string {
    if dir == "" then "" else if dir[|dir| - 1] == '/' then dir else dir + "/"
  }

  lemma JoinAfterHead(dir: string, rel: string)
    ensures Join(dir, rel) == JoinHead(dir) + rel
  {
  }

  /** Joining never changes the directory part. */
  lemma JoinKeepsDir(dir: string, rel: string, k: nat)
    requires k < |dir|
    ensures k < |Join(dir, rel)| && Join(dir, rel)[k] == dir[k]
  {
  }

  /** Linux's limit on one path component, in bytes (`NAME_MAX`). */
  const NameMax: nat := 255

  /** The number of bytes of `s` in UTF-8. */
  function Utf8Length(s: string): (n: nat)
    ensures n >= |s|
    decreases |s|
  {
    if |s| == 0 then 0
    else
      var c := s[0] as int;
      (if c < 0x80 then 1 else if c < 0x800 then 2 else if c < 0x1_0000 then 3 else 4)
      + Utf8Length(s[1..])
  }

  /** Every '/'-separated component of `path` is within `NameMax` bytes;
      opening a path with a longer component fails with `ENAMETOOLONG`. */
  predicate NamesFit(path: string) {
    forall part :: part in Split(path, '/') ==> Utf8Length(part) <= NameMax
  }

  /** A path without '/' longer than `NameMax` characters cannot be
      opened. */
  lemma OverlongName(name: string)
    requires '/' !in name && |name| > NameMax
    ensures !NamesFit(name)
  {
    SplitNoSep(name, '/');
    assert name in Split(name, '/');
  }
}
