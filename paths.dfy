/** The two path helpers the core relies on: Node's POSIX `path.extname`, and
    the temporary-file naming of `getTmpPath` (src/faceswap.js:106). */
module PathName {

  /** The path without its trailing `/` characters. */
  function StripTrailingSlashes(p: string): string {
    if p != [] && p[|p| - 1] == '/' then StripTrailingSlashes(p[..|p| - 1]) else p
  }

  /** The text after the last `/` of `p` (all of `p` if it has none). */
  function LastSegment(p: string): string {
    if p == [] || p[|p| - 1] == '/' then [] else LastSegment(p[..|p| - 1]) + [p[|p| - 1]]
  }

  /** The index of the last `c` in `s`, or -1. */
  function LastIndexOf(s: string, c: char): (r: int)
    ensures -1 <= r < |s|
    ensures r >= 0 ==> s[r] == c
  {
    if s == [] then -1 else if s[|s| - 1] == c then |s| - 1 else LastIndexOf(s[..|s| - 1], c)
  }

  /** Node's POSIX `path.extname`: trailing slashes are ignored; within the last
      segment, the text from its last `.` to its end, or "" when the segment has
      no `.`, when that `.` is the segment's first character, or when the
      segment is "..". */
  function Extname(p: string): (r: string)
    ensures r == [] || r[0] == '.'
  {
    var seg := LastSegment(StripTrailingSlashes(p));
    var d := LastIndexOf(seg, '.');
    if d <= 0 || seg == ".." then "" else seg[d..]
  }

  /** The shape of an extension: empty, or a `.` followed by characters that
      are neither `.` nor `/`. */
  predicate IsExtension(e: string) {
    e == [] || (e[0] == '.' && forall i :: 1 <= i < |e| ==> e[i] != '.' && e[i] != '/')
  }

  /** `getTmpPath`: `path.join('/tmp', id + path.extname(name))`, where `id` is
      a fresh identifier (a UUID in the source). */
  function TmpPath(id: string, name: string): (r: string)
    ensures |r| >= 5 + |id| && r[..5] == "/tmp/" && r[5..5 + |id|] == id
  {
    "/tmp/" + id + Extname(name)
  }

  /** An identifier of the shape `uuidV4` produces: non-empty, no `/`, no `.`. */
  predicate PlainId(id: string) {
    |id| > 0 && '/' !in id && '.' !in id
  }

  lemma {:induction false} LastIndexOfSpec(s: string, c: char)
    ensures var r := LastIndexOf(s, c);
      -1 <= r < |s| && (r >= 0 ==> s[r] == c) && (forall i :: r < i < |s| ==> s[i] != c)
    decreases |s|
  {
    if s != [] && s[|s| - 1] != c {
      LastIndexOfSpec(s[..|s| - 1], c);
    }
  }

  lemma {:induction false} LastSegmentSpec(p: string)
    ensures var r := LastSegment(p); |r| <= |p| && r == p[|p| - |r|..] && '/' !in r
    decreases |p|
  {
    if p != [] && p[|p| - 1] != '/' {
      LastSegmentSpec(p[..|p| - 1]);
    }
  }

  /** Whatever the path, `Extname` yields an extension-shaped string: either
      nothing or a `.` followed by neither `.` nor `/`. */
  lemma ExtnameShape(p: string)
    ensures IsExtension(Extname(p))
  {
    var seg := LastSegment(StripTrailingSlashes(p));
    var d := LastIndexOf(seg, '.');
    LastSegmentSpec(StripTrailingSlashes(p));
    LastIndexOfSpec(seg, '.');
    if !(d <= 0 || seg == "..") {
      var e := seg[d..];
      forall i | 1 <= i < |e| ensures e[i] != '.' && e[i] != '/' {
        assert e[i] == seg[d + i];
      }
    }
  }

  /** A temporary path keeps the extension of the name it was made for, so the
      base image stays in its own format and every emoji is a `.png`. */
  lemma TmpPathKeepsExtname(id: string, name: string)
    requires PlainId(id)
    ensures Extname(TmpPath(id, name)) == Extname(name)
  {
    var ext := Extname(name);
    ExtnameShape(name);
    assert TmpPath(id, name) == "/tmp" + "/" + (id + ext);
    NoSlashInTail(id, ext);
    ExtnameOfJoin("/tmp", id, ext);
  }

  lemma NoSlashInTail(id: string, ext: string)
    requires '/' !in id && IsExtension(ext)
    ensures '/' !in id + ext
  {
    var tail := id + ext;
    forall i | 0 <= i < |tail| ensures tail[i] != '/' {
      if i < |id| { assert tail[i] == id[i]; } else { assert tail[i] == ext[i - |id|]; }
    }
  }

  /** The extension of `dir/<id><ext>` is `ext` when `id` is a plain identifier
      and `ext` has the shape of an extension. */
  lemma ExtnameOfJoin(dir: string, id: string, ext: string)
    requires PlainId(id) && IsExtension(ext)
    requires '/' !in id + ext
    ensures Extname(dir + "/" + (id + ext)) == ext
  {
    var tail := id + ext;
    var p := dir + "/" + tail;
    assert p[|p| - 1] == tail[|tail| - 1];
    assert StripTrailingSlashes(p) == p;
    LastSegmentOfJoin(dir, tail);
    if ext == [] {
      assert tail == id;
      LastIndexOfSpec(tail, '.');
      assert LastIndexOf(tail, '.') == -1;
    } else {
      LastDotOfId(tail, id, ext);
      assert tail != ".." by { assert tail[0] == id[0]; }
      assert tail[|id|..] == ext;
    }
  }

  lemma LastDotOfId(tail: string, id: string, ext: string)
    requires PlainId(id) && tail == id + ext && ext != [] && IsExtension(ext)
    ensures LastIndexOf(tail, '.') == |id|
  {
    assert tail[|id|] == '.';
    forall i | |id| < i < |tail| ensures tail[i] != '.' {
      assert tail[i] == ext[i - |id|];
    }
    LastIndexOfSpec(tail, '.');
  }

  /** A path without `/` is its own last segment. */
  lemma {:induction false} LastSegmentWhole(p: string)
    requires '/' !in p
    ensures LastSegment(p) == p
    decreases |p|
  {
    if p != [] {
      LastSegmentWhole(p[..|p| - 1]);
      assert p[..|p| - 1] + [p[|p| - 1]] == p;
    }
  }

  /** The last segment of `dir + "/" + tail` is `tail` when `tail` has no `/`. */
  lemma {:induction false} LastSegmentOfJoin(dir: string, tail: string)
    requires '/' !in tail
    ensures LastSegment(dir + "/" + tail) == tail
    decreases |tail|
  {
    var p := dir + "/" + tail;
    if tail == [] {
      assert p[|p| - 1] == '/';
    } else {
      var last := tail[|tail| - 1];
      assert p[..|p| - 1] == dir + "/" + tail[..|tail| - 1];
      LastSegmentOfJoin(dir, tail[..|tail| - 1]);
      assert tail[..|tail| - 1] + [last] == tail;
    }
  }

  /** A name without `/` is its own last segment: its extension starts at its
      last `.`, unless that is its first character or there is none. */
  lemma ExtnameOfName(p: string)
    requires '/' !in p && p != [] && p != ".."
    ensures var d := LastIndexOf(p, '.');
      Extname(p) == if d <= 0 then "" else p[d..]
  {
    assert p[|p| - 1] in p;
    assert StripTrailingSlashes(p) == p;
    LastSegmentWhole(p);
  }

  /** Only the last segment of a path decides its extension: an object key
      in a folder has the extension of its file name. */
  lemma ExtnameOfPath(dir: string, name: string)
    requires '/' !in name && name != []
    ensures Extname(dir + "/" + name) == Extname(name)
  {
    var p := dir + "/" + name;
    assert p[|p| - 1] == name[|name| - 1];
    assert name[|name| - 1] in name;
    assert StripTrailingSlashes(p) == p;
    assert StripTrailingSlashes(name) == name;
    LastSegmentOfJoin(dir, name);
    LastSegmentWhole(name);
  }

  /** A trailing dot is an extension of its own. */
  lemma ExtnameTrailingDot()
    ensures Extname("index.") == "."
  {
    ExtnameOfName("index.");
  }

  /** A name whose only dot is its first character (a hidden file) has no
      extension. */
  lemma ExtnameHidden(p: string)
    requires '/' !in p && |p| > 1 && p[0] == '.' && '.' !in p[1..]
    ensures Extname(p) == ""
  {
    assert p != ".." by { assert p[1..][0] == p[1]; }
    ExtnameOfName(p);
    LastIndexOfSpec(p, '.');
  }

  /** A name without any dot has no extension. */
  lemma ExtnameNoDot(p: string)
    requires '/' !in p && '.' !in p
    ensures Extname(p) == ""
  {
    if p != [] {
      ExtnameOfName(p);
      LastIndexOfSpec(p, '.');
    }
  }
}
