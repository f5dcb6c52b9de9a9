/**
 * The `pathlib.PurePosixPath` properties the modelled code reads: `name`
 * (the last path component), `suffix` (its final extension) and `stem`.
 */
module Paths {
  import opened Base

  /** `s.rfind(c)`: the last position holding `c`, if any. */
  function RFind(s: string, c: char): (r: Option<nat>)
    ensures r.None? <==> c !in s
    ensures r.Some? ==> r.value < |s| && s[r.value] == c && c !in s[r.value + 1..]
  {
    if s == [] then None
    else if s[|s| - 1] == c then Some(|s| - 1)
    else
      var r := RFind(s[..|s| - 1], c);
      assert s == s[..|s| - 1] + [s[|s| - 1]];
      if r.Some? then
        assert s[r.value + 1..] == s[..|s| - 1][r.value + 1..] + [s[|s| - 1]];
        r
      else r
  }

  /** `PurePosixPath(path).name`: the last component of the path, where
      empty components (repeated or trailing '/') and "." components are
      dropped; "" when no component is left. */
  function Name(path: string): (n: string)
    ensures '/' !in n && n != "."
    decreases |path|
  {
    match RFind(path, '/')
    case None => if path == "." then "" else path
    case Some(i) =>
      var last := path[i + 1..];
      if last == "" || last == "." then Name(path[..i]) else last
  }

  /** A trailing '/' or "/." does not change the name. */
  lemma NameTrailing(path: string)
    ensures Name(path + "/") == Name(path)
    ensures Name(path + "/.") == Name(path)
  {
    RFindLast(path, '/', "");
    assert path + "/" == path + ['/'] + "";
    assert (path + "/")[..|path|] == path;
    RFindLast(path, '/', ".");
    assert path + "/." == path + ['/'] + ".";
    assert (path + "/.")[..|path|] == path;
    assert (path + "/.")[|path| + 1..] == ".";
  }

  /** `PurePosixPath(path).suffix`: from the last '.' of the name, provided
      that dot is neither its first nor its last character; "" otherwise. */
  function Suffix(path: string): (ext: string)
    ensures ext == [] || (|ext| >= 2 && ext[0] == '.' && '.' !in ext[1..] && '/' !in ext)
  {
    var n := Name(path);
    match RFind(n, '.')
    case None => []
    case Some(i) =>
      if 0 < i < |n| - 1 then
        assert n[i..][1..] == n[i + 1..];
        n[i..]
      else []
  }

  /** `PurePosixPath(path).stem`: the name without its suffix. */
  function Stem(path: string): (stem: string)
    ensures stem + Suffix(path) == Name(path)
  {
    var n := Name(path);
    match RFind(n, '.')
    case None => n
    case Some(i) =>
      if 0 < i < |n| - 1 then
        assert n[..i] + n[i..] == n;
        n[..i]
      else n
  }

  /** The last `c` of `a + [c] + b` is the one after `a` when `b` holds none. */
  lemma {:induction false} RFindLast(a: string, c: char, b: string)
    requires c !in b
    ensures RFind(a + [c] + b, c) == Some(|a|)
    decreases |b|
  {
    var s := a + [c] + b;
    if b != [] {
      var b' := b[..|b| - 1];
      assert s[..|s| - 1] == a + [c] + b';
      assert c !in b' by {
        forall i | 0 <= i < |b'| ensures b'[i] != c {
          assert b'[i] == b[i];
        }
      }
      assert s[|s| - 1] == b[|b| - 1];
      RFindLast(a, c, b');
    }
  }

  /** The name of `dir/n` is `n` when `n` is a component: non-empty, not
      ".", and without '/'. */
  lemma NameOfJoin(dir: string, n: string)
    requires '/' !in n && n != "" && n != "."
    ensures Name(dir + "/" + n) == n
  {
    assert dir + "/" + n == dir + ['/'] + n;
    RFindLast(dir, '/', n);
    assert (dir + ['/'] + n)[|dir| + 1..] == n;
  }

  lemma NoSlashJoin(stem: string, e: string)
    requires '/' !in stem && '/' !in e
    ensures '/' !in stem + ("." + e)
  {
    var n := stem + ("." + e);
    forall i | 0 <= i < |n| ensures n[i] != '/' {
      if i < |stem| { assert n[i] == stem[i]; }
      else if i > |stem| { assert n[i] == e[i - |stem| - 1]; }
    }
  }

  /** A name made of a non-empty stem and an extension "`.e`" has suffix
      "`.e`", whatever directory it sits in. */
  lemma SuffixOfName(dir: string, stem: string, e: string)
    requires stem != [] && '/' !in stem && '/' !in e && '.' !in e && e != []
    ensures Suffix(dir + "/" + stem + "." + e) == "." + e
  {
    var ext := "." + e;
    var n := stem + ext;
    NoSlashJoin(stem, e);
    assert dir + "/" + stem + "." + e == dir + "/" + n;
    NameOfJoin(dir, n);
    assert n == stem + ['.'] + e;
    RFindLast(stem, '.', e);
    assert n[|stem|..] == ext;
  }

  /** A component with no '/' is its own name. */
  lemma NameOfPlain(n: string)
    requires '/' !in n && n != "" && n != "."
    ensures Name(n) == n
  {
  }

  /** An extension given with its dot is a dot and a name part. */
  lemma ExtensionParts(ext: string)
    requires |ext| >= 2 && ext[0] == '.' && '.' !in ext[1..] && '/' !in ext
    ensures ext == "." + ext[1..] && '/' !in ext[1..]
  {
    forall i | 0 <= i < |ext[1..]| ensures ext[1..][i] != '/' { assert ext[1..][i] == ext[i + 1]; }
  }

  /** The same for an extension given with its dot. */
  lemma SuffixOfStored(dir: string, stem: string, ext: string)
    requires stem != [] && '/' !in stem
    requires |ext| >= 2 && ext[0] == '.' && '.' !in ext[1..] && '/' !in ext
    ensures Suffix(dir + "/" + (stem + ext)) == ext
  {
    var e := ext[1..];
    ExtensionParts(ext);
    assert dir + "/" + (stem + ext) == dir + "/" + stem + "." + e;
    SuffixOfName(dir, stem, e);
  }

  /** And for a name with no directory. */
  lemma SuffixOfPlain(stem: string, ext: string)
    requires stem != [] && '/' !in stem
    requires |ext| >= 2 && ext[0] == '.' && '.' !in ext[1..] && '/' !in ext
    ensures Suffix(stem + ext) == ext
  {
    var e := ext[1..];
    var n := stem + ext;
    ExtensionParts(ext);
    NoSlashJoin(stem, e);
    assert n == stem + ("." + e);
    NameOfPlain(n);
    assert n == stem + ['.'] + e;
    RFindLast(stem, '.', e);
    assert n[|stem|..] == ext;
  }

  /** A path with no dot in its name has no suffix. */
  lemma NoDotNoSuffix(path: string)
    requires '.' !in Name(path)
    ensures Suffix(path) == []
  {
  }
}
