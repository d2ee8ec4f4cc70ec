/** Go's `path/filepath` on a Unix system, where the separator is '/'. */
module Paths {
  import opened Strings

  /** A path element that `Clean` keeps as it is. */
  predicate IsNormalElement(e: string) {
    e != "" && e != "." && e != ".." && '/' !in e
  }

  /** The elements of a split path with the empty and "." elements dropped. */
  function Elements(parts: seq<string>): (r: seq<string>)
    ensures forall k :: 0 <= k < |r| ==> r[k] != "" && r[k] != "." && '/' !in r[k]
    requires forall k :: 0 <= k < |parts| ==> '/' !in parts[k]
  {
    if parts == [] then []
    else if parts[0] == "" || parts[0] == "." then Elements(parts[1..])
    else [parts[0]] + Elements(parts[1..])
  }

  lemma {:induction false} ElementsAppend(a: seq<string>, b: seq<string>)
    requires forall k :: 0 <= k < |a| ==> '/' !in a[k]
    requires forall k :: 0 <= k < |b| ==> '/' !in b[k]
    ensures Elements(a + b) == Elements(a) + Elements(b)
  {
    if a == [] {
      assert a + b == b;
    } else {
      assert (a + b)[0] == a[0] && (a + b)[1..] == a[1..] + b;
      ElementsAppend(a[1..], b);
      if a[0] == "" || a[0] == "." {
        assert Elements(a + b) == Elements(a[1..] + b);
      } else {
        assert Elements(a + b) == [a[0]] + Elements(a[1..] + b);
      }
    }
  }

  /** The lexical resolution of ".." that `Clean` performs, element by element: ".." removes
      the element before it unless that is itself "..", is dropped at the root of a rooted
      path, and is kept at the front of a relative one. */
  function Resolve(elems: seq<string>, rooted: bool): (st: seq<string>)
    requires forall k :: 0 <= k < |elems| ==> elems[k] != "" && elems[k] != "." && '/' !in elems[k]
    ensures forall k :: 0 <= k < |st| ==> st[k] != "" && '/' !in st[k]
  {
    if elems == [] then []
    else
      var st := Resolve(elems[..|elems| - 1], rooted);
      var e := elems[|elems| - 1];
      if e == ".." then
        if |st| > 0 && st[|st| - 1] != ".." then st[..|st| - 1]
        else if rooted then st
        else st + [".."]
      else st + [e]
  }

  lemma {:induction false} JoinNonEmpty(parts: seq<string>)
    requires |parts| > 0 && parts[|parts| - 1] != ""
    ensures Join(parts, '/') != ""
  {
  }

  /** `filepath.Clean`: the shortest lexically equivalent path; never empty, "." for the
      empty path, and rooted when `p` is. */
  function Clean(p: string): (r: string)
    ensures r != ""
    ensures p == "" ==> r == "."
    ensures |p| > 0 && p[0] == '/' ==> r[0] == '/'
  {
    var rooted := |p| > 0 && p[0] == '/';
    assert p == "" ==> Split(p, '/') == [""] && Elements([""]) == [];
    Render(Resolve(Elements(Split(p, '/')), rooted), rooted)
  }

  /** The text of a resolved element list; "." stands for the empty relative path. */
  function Render(st: seq<string>, rooted: bool): (r: string)
    requires forall k :: 0 <= k < |st| ==> st[k] != ""
    ensures r != ""
  {
    if rooted then "/" + Join(st, '/')
    else if st == [] then "."
    else JoinNonEmpty(st); Join(st, '/')
  }

  /** One past the last '/' before position `k` of `p`, or 0 when there is none. */
  function LastSlashEnd(p: string, k: nat): (i: nat)
    requires k <= |p|
    ensures i <= k
    ensures forall j :: i <= j < k ==> p[j] != '/'
    ensures i > 0 ==> p[i - 1] == '/'
  {
    if k == 0 || p[k - 1] == '/' then k else LastSlashEnd(p, k - 1)
  }

  /** The part of `p` after its last '/', or all of `p` when it has none. */
  function AfterLastSlash(p: string): (r: string)
    ensures |r| <= |p|
    ensures '/' !in r
  {
    var i := LastSlashEnd(p, |p|);
    assert forall j :: 0 <= j < |p| - i ==> p[i..][j] == p[i + j];
    p[i..]
  }

  /** The end of `p[..k]` once its trailing '/' characters are dropped. */
  function TrailingSlashesStart(p: string, k: nat): (e: nat)
    requires k <= |p|
    ensures e <= k
    ensures forall j :: e <= j < k ==> p[j] == '/'
    ensures e > 0 ==> p[e - 1] != '/'
  {
    if k == 0 || p[k - 1] != '/' then k else TrailingSlashesStart(p, k - 1)
  }

  /** `p` without its trailing '/' characters. */
  function TrimTrailingSlashes(p: string): (r: string)
    ensures |r| <= |p|
    ensures r == [] || r[|r| - 1] != '/'
  {
    p[..TrailingSlashesStart(p, |p|)]
  }

  /** `filepath.Base`: the last element of `p`. */
  function Base(p: string): (r: string)
    ensures r != ""
    ensures r != "/" ==> '/' !in r
  {
    if p == "" then "."
    else
      var q := TrimTrailingSlashes(p);
      if q == "" then "/" else AfterLastSlash(q)
  }

  /** `filepath.Dir`: all but the last element of `p`, cleaned; "." when `p` has no '/',
      and rooted when `p` is. */
  function Dir(p: string): (r: string)
    ensures r != ""
    ensures '/' !in p ==> r == "."
    ensures |p| > 0 && p[0] == '/' ==> r[0] == '/'
  {
    var i := LastSlashEnd(p, |p|);
    assert i == 0 ==> p[..i] == "";
    assert |p| > 0 && p[0] == '/' ==> i > 0 && p[..i][0] == '/';
    Clean(p[..i])
  }

  /** `filepath.Join` of two elements: empty elements are ignored and the result is cleaned. */
  function JoinPath(a: string, b: string): (r: string)
    ensures (a == "" && b == "") <==> r == ""
  {
    if a == "" && b == "" then ""
    else if a == "" then Clean(b)
    else if b == "" then Clean(a)
    else Clean(a + "/" + b)
  }

  lemma PrefixCharOfConcat(a: string, b: string, j: nat)
    requires j < |a|
    ensures (a + b)[j] == a[j]
  {
  }

  /** The slash-free tail of a path that ends in `/name` (or is just `name`) is `name`. */
  lemma AfterLastSlashOf(prefix: string, name: string)
    requires name != "" && '/' !in name
    requires prefix == "" || prefix[|prefix| - 1] == '/'
    ensures AfterLastSlash(prefix + name) == name
  {
    var p := prefix + name;
    var i := LastSlashEnd(p, |p|);
    if i < |prefix| {
      PrefixCharOfConcat(prefix, name, |prefix| - 1);
      assert false;
    }
    if i > |prefix| {
      assert false;
    }
    assert p[|prefix|..] == name;
  }

  /** `filepath.Base` of a path whose last element is `name` is `name`. */
  lemma {:induction false} BaseOf(prefix: string, name: string)
    requires name != "" && '/' !in name
    requires prefix == "" || prefix[|prefix| - 1] == '/'
    ensures Base(prefix + name) == name
  {
    var p := prefix + name;
    assert p[|p| - 1] == name[|name| - 1] != '/';
    assert TrimTrailingSlashes(p) == p;
    AfterLastSlashOf(prefix, name);
  }

  /** The elements of the part of `prefix` before its final '/'. */
  function PrefixElements(prefix: string): seq<string>
  {
    if prefix == "" then [] else Elements(Split(prefix[..|prefix| - 1], '/'))
  }

  lemma {:induction false} ElementsOfDirPath(prefix: string, dir: string)
    requires IsNormalElement(dir)
    requires prefix == "" || prefix[|prefix| - 1] == '/'
    ensures Elements(Split(prefix + dir + "/", '/')) == PrefixElements(prefix) + [dir]
  {
    var p := prefix + dir + "/";
    SplitNoSeparator(dir, '/');
    SplitAppend(dir, "", '/');
    assert dir + "/" == dir + ['/'] + "";
    var pre: seq<string>;
    if prefix == "" {
      assert p == dir + "/";
      pre := [];
    } else {
      var front := prefix[..|prefix| - 1];
      assert p == front + ['/'] + (dir + "/");
      SplitAppend(front, dir + "/", '/');
      pre := Split(front, '/');
    }
    assert Split(p, '/') == pre + [dir, ""];
    ElementsAppend(pre, [dir, ""]);
    assert Elements([""]) == [];
    assert Elements([dir, ""]) == [dir] + Elements([""]);
  }

  lemma {:induction false} ResolveAppendNormal(els: seq<string>, dir: string, rooted: bool)
    requires forall k :: 0 <= k < |els| ==> els[k] != "" && els[k] != "." && '/' !in els[k]
    requires IsNormalElement(dir)
    ensures Resolve(els + [dir], rooted) == Resolve(els, rooted) + [dir]
  {
    assert (els + [dir])[..|els|] == els;
  }

  lemma {:induction false} BaseOfRender(st0: seq<string>, dir: string, rooted: bool)
    requires forall k :: 0 <= k < |st0| ==> st0[k] != ""
    requires IsNormalElement(dir)
    ensures Base(Render(st0 + [dir], rooted)) == dir
  {
    var st := st0 + [dir];
    if st0 == [] {
      assert st == [dir];
      assert Join(st, '/') == dir;
      if rooted {
        BaseOf("/", dir);
      } else {
        BaseOf("", dir);
      }
    } else {
      assert st[..|st| - 1] == st0;
      assert Join(st, '/') == Join(st0, '/') + "/" + dir;
      if rooted {
        assert "/" + Join(st, '/') == ("/" + Join(st0, '/') + "/") + dir;
        BaseOf("/" + Join(st0, '/') + "/", dir);
      } else {
        BaseOf(Join(st0, '/') + "/", dir);
      }
    }
  }

  /** A cleaned path whose last element is normal ends in that element. */
  lemma {:induction false} CleanEndsWith(prefix: string, dir: string)
    requires IsNormalElement(dir)
    requires prefix == "" || prefix[|prefix| - 1] == '/'
    ensures Base(Clean(prefix + dir + "/")) == dir
  {
    var p := prefix + dir + "/";
    var rooted := |p| > 0 && p[0] == '/';
    ElementsOfDirPath(prefix, dir);
    ResolveAppendNormal(PrefixElements(prefix), dir, rooted);
    BaseOfRender(Resolve(PrefixElements(prefix), rooted), dir, rooted);
  }

  /** The base name of the directory of `prefix + dir + "/" + file` is `dir`: the project
      folder of a manifest path. */
  lemma {:induction false} ParentName(prefix: string, dir: string, file: string)
    requires IsNormalElement(dir)
    requires prefix == "" || prefix[|prefix| - 1] == '/'
    requires file != "" && '/' !in file
    ensures Base(Dir(prefix + dir + "/" + file)) == dir
  {
    var p := prefix + dir + "/" + file;
    AfterLastSlashOf(prefix + dir + "/", file);
    assert p[..|p| - |file|] == prefix + dir + "/";
    CleanEndsWith(prefix, dir);
  }
}
