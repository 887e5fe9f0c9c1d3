/** cachekeyName (dewy.go): the artifact of a response is cached under "tag--base". */
module CacheKeys {
  import opened Basics

  const CURRENT_KEY := "current"

  predicate Free(s: string, c: char) {
    forall i :: 0 <= i < |s| ==> s[i] != c
  }

  /** strings.SplitN(s, "?", 2)[0]. */
  function CutQuery(s: string): string {
    if s == [] || s[0] == '?' then [] else [s[0]] + CutQuery(s[1..])
  }

  function TrimSlashes(s: string): string {
    if s != [] && s[|s| - 1] == '/' then TrimSlashes(s[..|s| - 1]) else s
  }

  function AfterLastSlash(s: string): string {
    if s == [] || s[|s| - 1] == '/' then [] else AfterLastSlash(s[..|s| - 1]) + [s[|s| - 1]]
  }

  /** filepath.Base on a Unix system. */
  function Base(path: string): string {
    if path == [] then "."
    else if AfterLastSlash(TrimSlashes(path)) == [] then "/"
    else AfterLastSlash(TrimSlashes(path))
  }

  function KeyOf(tag: string, url: string): string {
    tag + ("--" + Base(CutQuery(url)))
  }

  function CacheKey(res: CurrentResponse): string {
    KeyOf(res.tag, res.artifactURL)
  }

  // ----- which bases there are -----

  /** What an artifact URL can end in. */
  predicate IsBase(b: string) {
    b == "/" || (b != "" && Free(b, '/') && Free(b, '?'))
  }

  lemma {:induction false} CutQueryFree(s: string)
    ensures Free(CutQuery(s), '?')
    ensures Free(s, '?') ==> CutQuery(s) == s
  {
    if s != [] { CutQueryFree(s[1..]); }
  }

  lemma {:induction false} TrimFree(s: string)
    ensures Free(s, '?') ==> Free(TrimSlashes(s), '?')
    ensures Free(s, '/') ==> TrimSlashes(s) == s
  {
    if s != [] { TrimFree(s[..|s| - 1]); }
  }

  lemma {:induction false} AfterSlashFree(s: string)
    ensures Free(AfterLastSlash(s), '/')
    ensures Free(s, '?') ==> Free(AfterLastSlash(s), '?')
    ensures Free(s, '/') ==> AfterLastSlash(s) == s
  {
    if s != [] { AfterSlashFree(s[..|s| - 1]); }
  }

  /** The bases of URLs are exactly these strings. */
  lemma BasesExactly(b: string)
    ensures IsBase(b) <==> exists url :: Base(CutQuery(url)) == b
  {
    if IsBase(b) {
      if b == "/" {
        assert CutQuery("/") == "/" by { assert "/"[1..] == []; }
        assert TrimSlashes("/") == "" by { assert "/"[..0] == []; }
        assert Base(CutQuery("/")) == b;
      } else {
        CutQueryFree(b);
        TrimFree(b);
        AfterSlashFree(b);
        assert Base(CutQuery(b)) == b;
      }
    }
    if url :| Base(CutQuery(url)) == b {
      CutQueryFree(url);
      TrimFree(CutQuery(url));
      AfterSlashFree(TrimSlashes(CutQuery(url)));
    }
  }

  lemma {:induction false} CutQueryOf(path: string, query: string)
    requires Free(path, '?')
    ensures CutQuery(path + ("?" + query)) == path
  {
    if path == [] {
      assert path + ("?" + query) == "?" + query;
    } else {
      assert (path + ("?" + query))[1..] == path[1..] + ("?" + query);
      CutQueryOf(path[1..], query);
    }
  }

  lemma {:induction false} AfterSlashOf(dir: string, b: string)
    requires Free(b, '/')
    ensures AfterLastSlash(dir + "/" + b) == b
    decreases |b|
  {
    var s := dir + "/" + b;
    if b != [] {
      assert s[..|s| - 1] == dir + "/" + b[..|b| - 1];
      AfterSlashOf(dir, b[..|b| - 1]);
    }
  }

  /** The key of a URL is the tag, the separator and the last path element; the directory and the
      query do not matter. */
  lemma KeyOfUrl(tag: string, dir: string, b: string, query: string)
    requires Free(dir, '?') && b != "" && Free(b, '/') && Free(b, '?')
    ensures KeyOf(tag, dir + "/" + b) == tag + ("--" + b)
    ensures KeyOf(tag, dir + "/" + b + ("?" + query)) == tag + ("--" + b)
  {
    var path := dir + "/" + b;
    CutQueryFree(path);
    CutQueryOf(path, query);
    assert path[|path| - 1] == b[|b| - 1] && TrimSlashes(path) == path;
    AfterSlashOf(dir, b);
  }

  lemma BaseWithSlash(dir: string, b: string)
    requires b != "" && Free(b, '/')
    ensures Base(dir + "/" + b + "/") == b
  {
    var path := dir + "/" + b;
    var s := path + "/";
    assert s[..|s| - 1] == path && path[|path| - 1] == b[|b| - 1];
    assert TrimSlashes(path) == path;
    assert TrimSlashes(s) == path;
    AfterSlashOf(dir, b);
  }

  /** A final slash does not matter either. */
  lemma KeyOfSlash(tag: string, dir: string, b: string)
    requires Free(dir, '?') && b != "" && Free(b, '/') && Free(b, '?')
    ensures KeyOf(tag, dir + "/" + b + "/") == tag + ("--" + b)
  {
    CutQueryFree(dir + "/" + b + "/");
    BaseWithSlash(dir, b);
  }

  // ----- keys are apart from "current", and from each other unless tags clash -----

  lemma KeyIsNotCurrent(res: CurrentResponse)
    ensures CacheKey(res) != CURRENT_KEY
  {
    var key := CacheKey(res);
    assert key[|res.tag|] == '-';
    assert forall i :: 0 <= i < |CURRENT_KEY| ==> CURRENT_KEY[i] != '-';
  }

  /** The second tag continues the first one's separator with characters a base may have. */
  predicate Continues(t1: string, t2: string) {
    var x, y := t1 + "--", t2 + "--";
    x <= y && Free(y[|x|..], '/') && Free(y[|x|..], '?')
  }

  predicate Clash(t1: string, t2: string) {
    Continues(t1, t2) || Continues(t2, t1)
  }

  lemma ContinuedKeys(t1: string, b1: string, t2: string, b2: string)
    requires IsBase(b1) && IsBase(b2) && t1 + ("--" + b1) == t2 + ("--" + b2) && |t1| < |t2|
    ensures Continues(t1, t2)
  {
    var x, y := t1 + "--", t2 + "--";
    var key := t1 + ("--" + b1);
    assert key == x + b1 && key == y + b2;
    assert x == key[..|x|] && y == key[..|y|];
    var rest := y[|x|..];
    assert b1 == rest + b2 by { assert b1 == key[|x|..] && b2 == key[|y|..]; }
    assert rest != "";
    assert forall i :: 0 <= i < |rest| ==> rest[i] == b1[i];
    assert |b1| > 1;
  }

  lemma ContinuedBases(t1: string, t2: string)
    requires Continues(t1, t2)
    ensures exists b1, b2 :: IsBase(b1) && IsBase(b2) && t1 + ("--" + b1) == t2 + ("--" + b2)
  {
    var x, y := t1 + "--", t2 + "--";
    var b1 := y[|x|..] + "a";
    assert y == x + y[|x|..];
    assert t1 + ("--" + b1) == x + b1 == y + "a" == t2 + ("--" + "a");
    assert IsBase(b1) && IsBase("a");
  }

  lemma UrlOf(b: string) returns (url: string)
    requires IsBase(b)
    ensures Base(CutQuery(url)) == b
  {
    BasesExactly(b);
    url :| Base(CutQuery(url)) == b;
  }

  lemma BaseOf(url: string)
    ensures IsBase(Base(CutQuery(url)))
  {
    BasesExactly(Base(CutQuery(url)));
  }

  /** Two different tags can share a cache key exactly when they clash. */
  lemma KeysClashExactly(t1: string, t2: string)
    requires t1 != t2
    ensures (exists u1, u2 :: KeyOf(t1, u1) == KeyOf(t2, u2)) <==> Clash(t1, t2)
  {
    if u1, u2 :| KeyOf(t1, u1) == KeyOf(t2, u2) {
      var b1, b2 := Base(CutQuery(u1)), Base(CutQuery(u2));
      BaseOf(u1);
      BaseOf(u2);
      var key := KeyOf(t1, u1);
      assert t1 == key[..|t1|] && t2 == key[..|t2|];
      if |t1| < |t2| {
        ContinuedKeys(t1, b1, t2, b2);
      } else {
        ContinuedKeys(t2, b2, t1, b1);
      }
    }
    if Continues(t1, t2) { SharedKey(t1, t2); }
    if Continues(t2, t1) { SharedKey(t2, t1); }
  }

  lemma SharedKey(t1: string, t2: string)
    requires Continues(t1, t2)
    ensures exists u1, u2 :: KeyOf(t1, u1) == KeyOf(t2, u2)
  {
    ContinuedBases(t1, t2);
    var b1, b2 :| IsBase(b1) && IsBase(b2) && t1 + ("--" + b1) == t2 + ("--" + b2);
    var u1 := UrlOf(b1);
    var u2 := UrlOf(b2);
    assert KeyOf(t1, u1) == KeyOf(t2, u2);
  }

  predicate HasSeparator(t: string) {
    exists i :: 0 <= i < |t| - 1 && t[i] == '-' && t[i + 1] == '-'
  }

  /** Tags without "--" inside or "-" at the end never clash. */
  lemma PlainTagsDoNotClash(t1: string, t2: string)
    requires t1 != t2 && Continues(t1, t2)
    ensures HasSeparator(t2) || t2[|t2| - 1] == '-'
  {
    var x, y := t1 + "--", t2 + "--";
    assert x == y[..|x|];
    var n := |t1|;
    assert y[n] == '-' && y[n + 1] == '-';
    assert t1 == y[..n] && t2 == y[..|t2|];
    if n + 1 < |t2| {
      assert t2[n] == '-' && t2[n + 1] == '-';
    }
  }
}
