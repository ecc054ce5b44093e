/** JoinURLPaths of utils/urlutil/urlutil.go. */
module UrlJoin {
  import opened Seqs

  /** strings.TrimLeft(s, "/"). */
  function TrimLeft(s: string): string {
    if s != "" && s[0] == '/' then TrimLeft(s[1..]) else s
  }

  /** strings.TrimRight(s, "/"). */
  function TrimRight(s: string): string {
    if s != "" && s[|s| - 1] == '/' then TrimRight(s[..|s| - 1]) else s
  }

  /** strings.Join(parts, "/"). */
  function Join(parts: seq<string>): string {
    if parts == [] then ""
    else if |parts| == 1 then parts[0]
    else parts[0] + "/" + Join(parts[1..])
  }

  /** The paths without their outer slashes, less the empty ones. */
  function Clean(paths: seq<string>): seq<string> {
    if paths == [] then []
    else
      var last := TrimRight(TrimLeft(paths[|paths| - 1]));
      Clean(paths[..|paths| - 1]) + if last == "" then [] else [last]
  }

  /** Every part with a slash before it. */
  function Slashed(parts: seq<string>): string {
    if parts == [] then "" else Slashed(parts[..|parts| - 1]) + "/" + parts[|parts| - 1]
  }

  /** The meaning of joining: the base without trailing slashes, then each clean path behind a slash. */
  function Joined(baseURL: string, paths: seq<string>): string {
    TrimRight(baseURL) + Slashed(Clean(paths))
  }

  lemma {:induction false} SlashedAppend(a: seq<string>, b: seq<string>)
    ensures Slashed(a + b) == Slashed(a) + Slashed(b)
  {
    if b == [] {
      assert a + b == a;
    } else {
      var n := |b| - 1;
      SlashedAppend(a, b[..n]);
      assert (a + b)[..|a + b| - 1] == a + b[..n];
    }
  }

  lemma {:induction false} JoinIsSlashed(parts: seq<string>)
    requires parts != []
    ensures "/" + Join(parts) == Slashed(parts)
  {
    if |parts| == 1 {
      assert Slashed(parts[..0]) == "";
    } else {
      JoinIsSlashed(parts[1..]);
      SlashedAppend(parts[..1], parts[1..]);
      assert parts == parts[..1] + parts[1..];
      assert Slashed(parts[..1]) == "/" + parts[0] by { assert parts[..1][..0] == []; }
    }
  }

  method JoinURLPaths(baseURL: string, paths: seq<string>) returns (url: string)
    ensures url == Joined(baseURL, paths)
  {
    var cleanPaths: seq<string> := [];
    for i := 0 to |paths|
      invariant cleanPaths == Clean(paths[..i])
    {
      var path := TrimRight(TrimLeft(paths[i]));
      assert paths[..i + 1][..i] == paths[..i];
      if path != "" {
        cleanPaths := cleanPaths + [path];
      }
    }
    assert paths[..|paths|] == paths;
    var base := TrimRight(baseURL);
    if |cleanPaths| == 0 {
      return base;
    }
    JoinIsSlashed(cleanPaths);
    return base + "/" + Join(cleanPaths);
  }

  // ----- joining composes

  lemma {:induction false} CleanAppend(a: seq<string>, b: seq<string>)
    ensures Clean(a + b) == Clean(a) + Clean(b)
  {
    if b == [] {
      assert a + b == a;
    } else {
      var n := |b| - 1;
      CleanAppend(a, b[..n]);
      assert (a + b)[..|a + b| - 1] == a + b[..n];
    }
  }

  lemma {:induction false} TrimRightEnds(s: string)
    ensures TrimRight(s) != "" ==> TrimRight(s)[|TrimRight(s)| - 1] != '/'
  {
    if s != "" && s[|s| - 1] == '/' {
      TrimRightEnds(s[..|s| - 1]);
    }
  }

  lemma {:induction false} TrimLeftStarts(s: string)
    ensures TrimLeft(s) != "" ==> TrimLeft(s)[0] != '/'
  {
    if s != "" && s[0] == '/' {
      TrimLeftStarts(s[1..]);
    }
  }

  lemma {:induction false} TrimRightIsPrefix(s: string)
    ensures TrimRight(s) <= s
  {
    if s != "" && s[|s| - 1] == '/' {
      TrimRightIsPrefix(s[..|s| - 1]);
    }
  }

  ghost predicate IsBare(part: string) {
    part != "" && part[0] != '/' && part[|part| - 1] != '/'
  }

  /** Clean paths are not empty and neither start nor end with a slash. */
  lemma {:induction false} CleanIsBare(paths: seq<string>)
    ensures forall k :: 0 <= k < |Clean(paths)| ==> IsBare(Clean(paths)[k])
  {
    if paths != [] {
      CleanIsBare(paths[..|paths| - 1]);
      var path := paths[|paths| - 1];
      TrimLeftStarts(path);
      TrimRightIsPrefix(TrimLeft(path));
      TrimRightEnds(TrimLeft(path));
    }
  }

  /** A joined URL has no slash at its end left to trim. */
  lemma JoinedIsTrimmed(baseURL: string, paths: seq<string>)
    ensures TrimRight(Joined(baseURL, paths)) == Joined(baseURL, paths)
  {
    var parts := Clean(paths);
    CleanIsBare(paths);
    TrimRightEnds(baseURL);
    var url := Joined(baseURL, paths);
    if parts == [] {
      assert url == TrimRight(baseURL);
    } else {
      var last := parts[|parts| - 1];
      assert IsBare(last);
      assert url[|url| - 1] == last[|last| - 1];
    }
  }

  /** Joining in two steps is joining in one, for all inputs. */
  lemma JoiningComposes(baseURL: string, xs: seq<string>, ys: seq<string>)
    ensures Joined(Joined(baseURL, xs), ys) == Joined(baseURL, xs + ys)
  {
    JoinedIsTrimmed(baseURL, xs);
    CleanAppend(xs, ys);
    SlashedAppend(Clean(xs), Clean(ys));
    Assoc(TrimRight(baseURL), Slashed(Clean(xs)), Slashed(Clean(ys)));
  }

  // ----- what trimming removes

  function Slashes(n: nat): (s: string)
    ensures |s| == n && forall k :: 0 <= k < n ==> s[k] == '/'
  {
    if n == 0 then "" else Slashes(n - 1) + "/"
  }

  /** Trimming on the left removes slashes and nothing else. */
  lemma {:induction false} TrimLeftRemoves(s: string) returns (n: nat)
    ensures s == Slashes(n) + TrimLeft(s)
  {
    if s != "" && s[0] == '/' {
      var m := TrimLeftRemoves(s[1..]);
      assert s == "/" + s[1..];
      assert s == Slashes(m + 1) + TrimLeft(s);
      return m + 1;
    }
    return 0;
  }

  /** And so on the right. */
  lemma {:induction false} TrimRightRemoves(s: string) returns (n: nat)
    ensures s == TrimRight(s) + Slashes(n)
  {
    if s != "" && s[|s| - 1] == '/' {
      var m := TrimRightRemoves(s[..|s| - 1]);
      assert s == s[..|s| - 1] + "/";
      Assoc(TrimRight(s), Slashes(m), "/");
      return m + 1;
    }
    return 0;
  }

  lemma {:induction false} TrimLeftOf(n: nat, t: string)
    requires t == "" || t[0] != '/'
    ensures TrimLeft(Slashes(n) + t) == t
  {
    if n == 0 {
      assert Slashes(n) + t == t;
    } else {
      TrimLeftOf(n - 1, t);
      assert (Slashes(n) + t)[1..] == Slashes(n - 1) + t;
    }
  }

  lemma {:induction false} TrimRightOf(t: string, n: nat)
    requires t == "" || t[|t| - 1] != '/'
    ensures TrimRight(t + Slashes(n)) == t
  {
    if n == 0 {
      assert t + Slashes(n) == t;
    } else {
      TrimRightOf(t, n - 1);
      assert (t + Slashes(n))[..|t| + n - 1] == t + Slashes(n - 1);
    }
  }

  /** Every path is slashes alone, or a bare part between slashes. */
  lemma PathShape(path: string) returns (left: nat, part: string, right: nat)
    ensures path == Slashes(left) + part + Slashes(right)
    ensures part == "" || IsBare(part)
  {
    left := TrimLeftRemoves(path);
    var rest := TrimLeft(path);
    right := TrimRightRemoves(rest);
    part := TrimRight(rest);
    TrimLeftStarts(path);
    TrimRightIsPrefix(rest);
    TrimRightEnds(rest);
    Assoc(Slashes(left), part, Slashes(right));
  }

  /** The base loses exactly the slashes at its end. */
  lemma BaseJoins(base: string, n: nat)
    requires base == "" || base[|base| - 1] != '/'
    ensures Joined(base + Slashes(n), []) == base
  {
    TrimRightOf(base, n);
  }

  lemma TrimmedPart(left: nat, part: string, right: nat)
    requires IsBare(part)
    ensures TrimRight(TrimLeft(Slashes(left) + part + Slashes(right))) == part
  {
    Assoc(Slashes(left), part, Slashes(right));
    TrimLeftOf(left, part + Slashes(right));
    TrimRightOf(part, right);
  }

  lemma SlashedOne(part: string)
    ensures Slashed([part]) == "/" + part && Slashed([]) == ""
  {
    assert [part][..0] == [];
  }

  /** A bare part adds itself behind one slash, however many slashes stand around it. */
  lemma PartJoins(baseURL: string, left: nat, part: string, right: nat)
    requires IsBare(part)
    ensures Joined(baseURL, [Slashes(left) + part + Slashes(right)]) == Joined(baseURL, []) + "/" + part
  {
    TrimmedPart(left, part, right);
    CleanOne(Slashes(left) + part + Slashes(right));
    SlashedOne(part);
    Assoc(TrimRight(baseURL), "/", part);
  }

  /** A path of slashes adds nothing, and neither does the empty one. */
  lemma SlashesJoin(baseURL: string, n: nat)
    ensures Joined(baseURL, [Slashes(n)]) == Joined(baseURL, [])
  {
    assert Slashes(n) + "" == Slashes(n);
    TrimLeftOf(n, "");
    CleanOne(Slashes(n));
  }

  lemma CleanOne(path: string)
    ensures Clean([path]) == if TrimRight(TrimLeft(path)) == "" then [] else [TrimRight(TrimLeft(path))]
  {
    assert [path][..0] == [];
  }
}
