/**
 * The parts of Go's `path` and `net/url` packages the tree relies on, for
 * paths that are already clean: `path.Join` of a directory and one name,
 * `path.Split`, `path.Dir`, the segments a slash path names, and the two
 * escapes of `url.PathEscape` that keep a node name free of separators.
 */
module Paths {

  /**
   * `path.Join(parent, name)` for a clean parent and a name whose only
   * slashes lead it (a mount root's name): the separators between the two
   * parts collapse into one, as `path.Clean` collapses them.
   */
  function Join(parent: string, name: string): string
    decreases |name|
  {
    if parent == "" then name
    else if name == "" then parent
    else if name[0] == '/' then Join(parent, name[1..])
    else if parent[|parent| - 1] == '/' then parent + name
    else parent + "/" + name
  }

  /** Index just past the last '/' in `p`, or 0 when `p` has none. */
  function AfterLastSlash(p: string): (i: nat)
    ensures i <= |p|
    ensures i > 0 ==> p[i - 1] == '/'
    ensures forall k | i <= k < |p| :: p[k] != '/'
  {
    if p == [] then 0
    else if p[|p| - 1] == '/' then |p|
    else AfterLastSlash(p[..|p| - 1])
  }

  /** `path.Split`: everything up to and including the last '/', and the rest. */
  function Split(p: string): (r: (string, string))
    ensures r.0 + r.1 == p
    ensures '/' !in r.1
    ensures r.0 == "" || r.0[|r.0| - 1] == '/'
  {
    var i := AfterLastSlash(p);
    assert p[..i] + p[i..] == p;
    (p[..i], p[i..])
  }

  /** `path.Dir` for a clean path: the directory part without its trailing '/'. */
  function Dir(p: string): string
  {
    var d := Split(p).0;
    if d == "" then "." else if |d| == 1 then d else d[..|d| - 1]
  }

  /** The non-empty names a slash path is made of, in order. */
  function Segments(p: string): (s: seq<string>)
    ensures forall k | 0 <= k < |s| :: s[k] != "" && '/' !in s[k]
    decreases |p|
  {
    if p == "" then []
    else
      var (d, f) := Split(p);
      var tail := if f == "" then [] else [f];
      if d == "" then tail else Segments(d[..|d| - 1]) + tail
  }

  /** One character as `url.PathEscape` writes it, for the separator and the escape sign. */
  function EscapeChar(c: char): string
  {
    if c == '/' then "%2F" else if c == '%' then "%25" else [c]
  }

  /**
   * `url.PathEscape` restricted to the two characters that decide path
   * structure: '/' becomes "%2F" and '%' becomes "%25".
   */
  function Escape(name: string): (r: string)
    ensures '/' !in r
  {
    if name == "" then "" else EscapeChar(name[0]) + Escape(name[1..])
  }

  function Unescape(s: string): string
  {
    if s == "" then ""
    else if |s| >= 3 && s[..3] == "%2F" then "/" + Unescape(s[3..])
    else if |s| >= 3 && s[..3] == "%25" then "%" + Unescape(s[3..])
    else [s[0]] + Unescape(s[1..])
  }

  /** Escaping loses nothing: the original name can always be read back. */
  lemma {:induction false} UnescapeEscape(name: string)
    ensures Unescape(Escape(name)) == name
  {
    if name != "" {
      var rest := Escape(name[1..]);
      var e := Escape(name);
      assert e == EscapeChar(name[0]) + rest;
      UnescapeEscape(name[1..]);
      if name[0] == '/' {
        assert e[..3] == "%2F" && e[3..] == rest;
      } else if name[0] == '%' {
        assert e[..3] == "%25" && e[3..] == rest;
      } else {
        assert e[0] == name[0] && e[1..] == rest;
      }
      assert name == [name[0]] + name[1..];
    }
  }

  /** The last '/' of `d + f` ends `d` when `d` ends in one and `f` has none. */
  lemma {:induction false} AfterLastSlashAt(d: string, f: string)
    requires (d == "" || d[|d| - 1] == '/') && '/' !in f
    ensures AfterLastSlash(d + f) == |d|
    decreases |f|
  {
    if f == "" {
      assert d + f == d;
    } else {
      assert (d + f)[..|d + f| - 1] == d + f[..|f| - 1];
      AfterLastSlashAt(d, f[..|f| - 1]);
    }
  }

  /** `path.Split` cuts right after the last '/'. */
  lemma SplitAt(d: string, f: string)
    requires (d == "" || d[|d| - 1] == '/') && '/' !in f
    ensures Split(d + f) == (d, f)
  {
    AfterLastSlashAt(d, f);
    assert (d + f)[..|d|] == d && (d + f)[|d|..] == f;
  }

  /** A directory path of one name, as `Split` leaves it, has that one segment. */
  lemma SegmentsOfDir(name: string)
    requires name != "" && '/' !in name
    ensures Segments(name + "/") == [name]
  {
    SplitAt(name + "/", "");
    assert name + "/" + "" == name + "/";
    assert (name + "/")[..|name + "/"| - 1] == name;
    SplitAt("", name);
    assert "" + name == name;
  }

  /** A plain name is a path of that one segment. */
  lemma SegmentsOfName(name: string)
    requires name != "" && '/' !in name
    ensures Segments(name) == [name]
  {
    SplitAt("", name);
    assert "" + name == name;
  }

  /** Two plain names joined by '/' are a path of those two segments. */
  lemma SegmentsOfTwo(a: string, b: string)
    requires a != "" && '/' !in a && b != "" && '/' !in b
    ensures Segments(a + "/" + b) == [a, b]
  {
    var d := a + "/";
    SplitAt(d, b);
    assert d[..|d| - 1] == a;
    SegmentsOfName(a);
  }

  /** Below the root "/", the directory path "/name/" has the one segment `name`. */
  lemma SegmentsBelowRoot(name: string)
    requires name != "" && '/' !in name
    ensures var p := "/" + name + "/";
      |p| >= 1 && p[..1] == "/" && Segments(p[1..]) == [name]
  {
    var p := "/" + name + "/";
    assert p[1..] == name + "/";
    SegmentsOfDir(name);
  }

  /** `path.Split` and `path.Dir` undo `Join` of a clean absolute directory and a plain name. */
  lemma SplitJoin(parent: string, name: string)
    requires parent != "" && parent[0] == '/' && (parent == "/" || parent[|parent| - 1] != '/')
    requires name != "" && '/' !in name
    ensures Split(Join(parent, name)) == (if parent == "/" then parent else parent + "/", name)
    ensures Dir(Join(parent, name)) == parent
  {
    if parent == "/" {
      assert Join(parent, name) == "/" + name;
      SplitAt("/", name);
    } else {
      assert Join(parent, name) == (parent + "/") + name;
      SplitAt(parent + "/", name);
      assert (parent + "/")[..|parent|] == parent;
    }
  }

  /** A name with neither '/' nor '%' escapes to itself. */
  lemma {:induction false} EscapePlain(name: string)
    requires '/' !in name && '%' !in name
    ensures Escape(name) == name
  {
    if name != "" {
      EscapePlain(name[1..]);
      assert name == [name[0]] + name[1..];
    }
  }
}
