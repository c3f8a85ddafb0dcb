/** Path normalisation of the WASI host (Wasi::resolve in
    src/Runtime/Wasi.php): the segments are joined, trailing separators
    trimmed, backslashes turned into slashes, and the parts walked with
    '..' going up one level and '.' and empty parts dropped. */
module Wasi {
  import Text

  /** `rtrim($s, '\/')`: trailing slashes and backslashes removed. */
  function TrimRight(s: string): (r: string)
    ensures |r| <= |s| && r == s[..|r|]
    ensures r == [] || (r[|r| - 1] != '/' && r[|r| - 1] != '\\')
    decreases |s|
  {
    if s != [] && (s[|s| - 1] == '/' || s[|s| - 1] == '\\') then TrimRight(s[..|s| - 1]) else s
  }

  /** `str_replace('\\', '/', $s)` */
  function Slashes(s: string): (r: string)
    ensures |r| == |s| && '\\' !in r
    ensures forall i :: 0 <= i < |s| ==> r[i] == if s[i] == '\\' then '/' else s[i]
  {
    seq(|s|, i requires 0 <= i < |s| => if s[i] == '\\' then '/' else s[i])
  }

  /** `explode('/', $s)`: the pieces between slashes, one more than there
      are slashes, none of them holding a slash. */
  function Split(s: string): (r: seq<string>)
    ensures |r| >= 1
    ensures forall k :: 0 <= k < |r| ==> '/' !in r[k]
    ensures '\\' !in s ==> forall k :: 0 <= k < |r| ==> '\\' !in r[k]
    decreases |s|
  {
    if s == [] then [""]
    else
      var rest := Split(s[1..]);
      if s[0] == '/' then [""] + rest
      else [[s[0]] + rest[0]] + rest[1..]
  }

  /** One part of the foreach: '..' pops the last part (nothing at the
      root), '.' and the empty part are dropped, any other part is pushed. */
  function Step(parts: seq<string>, part: string): (r: seq<string>) {
    if part == ".." then (if parts == [] then [] else parts[..|parts| - 1])
    else if part != "." && part != "" then parts + [part]
    else parts
  }

  /** The foreach over `xs`, from `parts`. */
  function Walk(parts: seq<string>, xs: seq<string>): (r: seq<string>)
    decreases |xs|
  {
    if xs == [] then parts else Walk(Step(parts, xs[0]), xs[1..])
  }

  /** "/" when the path starts at the root. An empty string has no first
      character; PHP reads `$raw[0]` there as "", not "/". */
  function RootOf(s: string): (r: string) {
    if s != [] && s[0] == '/' then "/" else ""
  }

  /** The joined path as `resolve` writes it: trimmed, then its backslashes
      replaced, then split. */
  function Cleaned(segments: seq<string>): (r: string) {
    Slashes(TrimRight(Text.Join("/", segments)))
  }

  /** resolve as written: the root is read off the trimmed path, so a path
      made only of separators loses it. */
  function ResolvedAsWritten(segments: seq<string>): (r: string) {
    var raw := Cleaned(segments);
    RootOf(raw) + Text.Join("/", Walk([], Split(raw)))
  }

  /** resolve with the root read off the path before its trailing
      separators are trimmed. */
  function Resolved(segments: seq<string>): (r: string) {
    var raw := Cleaned(segments);
    RootOf(Slashes(Text.Join("/", segments))) + Text.Join("/", Walk([], Split(raw)))
  }

  /** Wasi::resolve with the root taken before trimming: the segments, the
      preprocessing, then the foreach over the parts. */
  method Resolve(segments: seq<string>) returns (path: string)
    ensures path == Resolved(segments)
  {
    var joined := Text.Join("/", segments);
    var raw := Slashes(TrimRight(joined));
    var root := RootOf(Slashes(joined));
    var pieces := Split(raw);
    var parts: seq<string> := [];
    for i := 0 to |pieces|
      invariant Walk(parts, pieces[i..]) == Walk([], pieces)
    {
      assert pieces[i..][1..] == pieces[i + 1..];
      var part := pieces[i];
      if part == ".." {
        if parts != [] {
          parts := parts[..|parts| - 1];
        }
      } else if part != "." && part != "" {
        parts := parts + [part];
      }
    }
    assert pieces[|pieces|..] == [];
    path := root + Text.Join("/", parts);
  }

  // ---------------------------------------------------------------------
  // what the walk leaves

  /** A part that can stand in a resolved path: no '.', '..' or empty
      part, and no separator. */
  predicate CleanPart(p: string) {
    p != "." && p != ".." && p != "" && '/' !in p && '\\' !in p
  }

  predicate Clean(parts: seq<string>) {
    forall k :: 0 <= k < |parts| ==> CleanPart(parts[k])
  }

  /** Walking separator-free parts from clean parts gives clean parts. */
  lemma {:induction false} WalkClean(parts: seq<string>, xs: seq<string>)
    requires Clean(parts)
    requires forall k :: 0 <= k < |xs| ==> '/' !in xs[k] && '\\' !in xs[k]
    ensures Clean(Walk(parts, xs))
    decreases |xs|
  {
    if xs != [] {
      WalkClean(Step(parts, xs[0]), xs[1..]);
    }
  }

  /** A resolved path holds no '.', '..' or empty part. */
  lemma ResolvedClean(segments: seq<string>)
    ensures Clean(Walk([], Split(Cleaned(segments))))
  {
    WalkClean([], Split(Cleaned(segments)));
  }

  /** Clean parts are pushed as they are. */
  lemma {:induction false} WalkOfClean(parts: seq<string>, xs: seq<string>)
    requires Clean(xs)
    ensures Walk(parts, xs) == parts + xs
    decreases |xs|
  {
    if xs != [] {
      WalkOfClean(parts + [xs[0]], xs[1..]);
    }
  }

  /** '..' undoes the part before it, and does nothing at the root. */
  lemma UpUndoes(parts: seq<string>, p: string)
    requires CleanPart(p)
    ensures Walk(parts, [p, ".."]) == parts
    ensures Walk([], [".."]) == []
  {
    assert Step(parts, p) == parts + [p];
    assert [p, ".."][1..] == [".."];
    assert Walk(parts + [p], [".."]) == Step(parts + [p], "..");
    assert (parts + [p])[..|parts|] == parts;
  }

  // ---------------------------------------------------------------------
  // splitting a joined path

  lemma {:induction false} SplitNoSlash(a: string)
    requires '/' !in a
    ensures Split(a) == [a]
    decreases |a|
  {
    if a != [] {
      SplitNoSlash(a[1..]);
      assert [a[0]] + a[1..] == a;
    }
  }

  lemma {:induction false} SplitPrefix(a: string, rest: string)
    requires '/' !in a
    ensures Split(a + "/" + rest) == [a] + Split(rest)
    decreases |a|
  {
    var s := a + "/" + rest;
    if a == [] {
      assert s[1..] == rest;
    } else {
      assert s[1..] == a[1..] + "/" + rest;
      SplitPrefix(a[1..], rest);
      assert [a[0]] + a[1..] == a;
    }
  }

  /** `explode('/', implode('/', $parts))` gives the parts back when none
      of them holds a slash. */
  lemma {:induction false} SplitJoin(parts: seq<string>)
    requires |parts| >= 1 && forall k :: 0 <= k < |parts| ==> '/' !in parts[k]
    ensures Split(Text.Join("/", parts)) == parts
    decreases |parts|
  {
    if |parts| == 1 {
      SplitNoSlash(parts[0]);
    } else {
      SplitPrefix(parts[0], Text.Join("/", parts[1..]));
      SplitJoin(parts[1..]);
    }
  }

  /** A path of clean parts holds no backslash, does not start with a
      slash and ends in a character the trim keeps. */
  lemma {:induction false} JoinClean(parts: seq<string>)
    requires Clean(parts) && parts != []
    ensures var j := Text.Join("/", parts);
      j != [] && '\\' !in j && j[0] != '/' && j[|j| - 1] != '/' && j[|j| - 1] != '\\'
    decreases |parts|
  {
    var j := Text.Join("/", parts);
    if |parts| > 1 {
      JoinClean(parts[1..]);
      var tail := Text.Join("/", parts[1..]);
      assert j == parts[0] + "/" + tail;
      assert j[|j| - 1] == tail[|tail| - 1];
      assert j[0] == parts[0][0];
    }
  }

  lemma SlashesNone(s: string)
    requires '\\' !in s
    ensures Slashes(s) == s
  {
  }

  lemma TrimRightKeeps(s: string)
    requires s == [] || (s[|s| - 1] != '/' && s[|s| - 1] != '\\')
    ensures TrimRight(s) == s
  {
  }

  /** A resolved path is a root followed by clean parts. */
  lemma ResolvedShape(segments: seq<string>) returns (root: string, parts: seq<string>)
    ensures root == "" || root == "/"
    ensures Clean(parts) && Resolved(segments) == root + Text.Join("/", parts)
  {
    root := RootOf(Slashes(Text.Join("/", segments)));
    parts := Walk([], Split(Cleaned(segments)));
    ResolvedClean(segments);
  }

  /** The empty path and the root resolve to themselves. */
  lemma ResolveBare(root: string)
    requires root == "" || root == "/"
    ensures Resolved([root]) == root
  {
    assert Text.Join("/", [root]) == root;
    assert TrimRight(root) == "";
    assert Slashes("") == "";
    assert Split("") == [""];
    assert Walk([], [""]) == [];
  }

  /** A root and clean parts come through the preprocessing unchanged. */
  lemma PathKept(root: string, parts: seq<string>)
    requires root == "" || root == "/"
    requires Clean(parts) && parts != []
    ensures var out := root + Text.Join("/", parts);
      Text.Join("/", [out]) == out && Slashes(out) == out && Cleaned([out]) == out && RootOf(out) == root
  {
    var j := Text.Join("/", parts);
    var out := root + j;
    JoinClean(parts);
    assert out[|out| - 1] == j[|j| - 1];
    assert '\\' !in out;
    TrimRightKeeps(out);
    SlashesNone(out);
    assert out[|root|] == j[0];
  }

  /** Splitting a root and clean parts and walking the pieces gives the
      parts back. */
  lemma PartsKept(root: string, parts: seq<string>)
    requires root == "" || root == "/"
    requires Clean(parts) && parts != []
    ensures Walk([], Split(root + Text.Join("/", parts))) == parts
  {
    var j := Text.Join("/", parts);
    SplitJoin(parts);
    WalkOfClean([], parts);
    if root == "/" {
      SplitPrefix("", j);
      assert root + j == "" + "/" + j;
      assert ([""] + parts)[1..] == parts;
      assert Walk([], [""] + parts) == Walk([], parts);
    } else {
      assert root + j == j;
    }
  }

  /** A root and at least one clean part resolve to themselves. */
  lemma ResolveParts(root: string, parts: seq<string>)
    requires root == "" || root == "/"
    requires Clean(parts) && parts != []
    ensures Resolved([root + Text.Join("/", parts)]) == root + Text.Join("/", parts)
  {
    PathKept(root, parts);
    PartsKept(root, parts);
  }

  /** Resolving a resolved path gives it back. */
  lemma ResolveIdempotent(segments: seq<string>)
    ensures Resolved([Resolved(segments)]) == Resolved(segments)
  {
    var root, parts := ResolvedShape(segments);
    if parts == [] {
      assert Resolved(segments) == root;
      ResolveBare(root);
    } else {
      ResolveParts(root, parts);
    }
  }

  /** As written, "/" resolves to the empty path while "/.." resolves to
      the root; with the root read before trimming, "/" stays "/". */
  lemma RootLostAsWritten()
    ensures ResolvedAsWritten(["/"]) == ""
    ensures ResolvedAsWritten(["/.."]) == "/"
    ensures Resolved(["/"]) == "/"
  {
    assert Text.Join("/", ["/"]) == "/";
    assert TrimRight("/") == TrimRight("");
    assert Slashes("") == "";
    assert Split("") == [""];
    assert Walk([], [""]) == [];
    assert Slashes("/") == "/";
    var up := "/..";
    assert Text.Join("/", [up]) == up;
    assert TrimRight(up) == up;
    assert Slashes(up) == up;
    assert Split(up) == ["", ".."] by {
      SplitPrefix("", "..");
      SplitNoSlash("..");
    }
    assert Walk([], ["", ".."]) == [];
  }
}
