/**
 * Choosing an output path that does not exist yet: the requested path if it
 * is free, otherwise `base(i)ext` for the least counter i >= 2 that is free.
 * The filesystem is a finite set of existing paths.
 */
module OutputPath {
  import opened Wrappers
  import opened Decimal

  /**
   * Index of the dot that starts the extension: the last dot of the final
   * path component, provided it is not that component's first character.
   */
  function ExtensionDot(p: string): (r: Option<nat>)
    ensures r.Some? ==> 0 < r.value < |p| && p[r.value] == '.' && p[r.value - 1] != '/'
    ensures r.Some? ==> forall j :: r.value < j < |p| ==> p[j] != '.' && p[j] != '/'
  {
    if p == [] then None
    else if p[|p| - 1] == '/' then None
    else if p[|p| - 1] == '.' then
      (if |p| >= 2 && p[|p| - 2] != '/' then Some(|p| - 1) else None)
    else ExtensionDot(p[..|p| - 1])
  }

  /** Splits a path into base and extension; the extension is empty or a dot followed by a plain name. */
  function SplitExt(path: string): (r: (string, string))
    ensures r.0 + r.1 == path
    ensures r.1 == [] || (r.1[0] == '.' && forall j :: 1 <= j < |r.1| ==> r.1[j] != '.' && r.1[j] != '/')
  {
    match ExtensionDot(path)
    case None => (path, [])
    case Some(k) => (path[..k], path[k..])
  }

  /**
   * The path tried for counter `i`: `base(i)ext`. It is always longer than
   * the path that was split, so it is never that path.
   */
  function Candidate(base: string, ext: string, i: nat): (r: string)
    ensures |r| >= |base| + |ext| + 3
    ensures r != base + ext
  {
    base + "(" + Digits(i) + ")" + ext
  }

  /** Different counters name different paths. */
  lemma CandidateInjective(base: string, ext: string, i: nat, j: nat)
    requires Candidate(base, ext, i) == Candidate(base, ext, j)
    ensures i == j
  {
    var di, dj := Digits(i), Digits(j);
    var ci, cj := Candidate(base, ext, i), Candidate(base, ext, j);
    assert |di| == |dj| by {
      assert |ci| == |base| + |di| + |ext| + 2;
      assert |cj| == |base| + |dj| + |ext| + 2;
    }
    var lo := |base| + 1;
    assert ci[lo..lo + |di|] == di;
    assert cj[lo..lo + |dj|] == dj;
    DigitsInjective(i, j);
  }

  /**
   * `out` is what resolving `path` against `existing` yields: `path` itself
   * when it is free, otherwise the first free `base(i)ext` with i >= 2, every
   * earlier counter naming an existing path.
   */
  ghost predicate IsResolution(path: string, existing: set<string>, out: string)
  {
    if path !in existing then out == path
    else
      var (base, ext) := SplitExt(path);
      exists i: nat :: 2 <= i && out == Candidate(base, ext, i) && out !in existing &&
        forall j: nat :: 2 <= j < i ==> Candidate(base, ext, j) in existing
  }

  /** At most one path is a resolution: the least free counter is unique. */
  lemma ResolutionUnique(path: string, existing: set<string>, a: string, b: string)
    requires IsResolution(path, existing, a) && IsResolution(path, existing, b)
    ensures a == b
  {
    if path in existing {
      var (base, ext) := SplitExt(path);
      var i: nat :| 2 <= i && a == Candidate(base, ext, i) && a !in existing &&
        forall j: nat :: 2 <= j < i ==> Candidate(base, ext, j) in existing;
      var k: nat :| 2 <= k && b == Candidate(base, ext, k) && b !in existing &&
        forall j: nat :: 2 <= j < k ==> Candidate(base, ext, j) in existing;
      assert i == k;
    }
  }

  /** A resolution never names an existing path. */
  lemma ResolutionIsFree(path: string, existing: set<string>, out: string)
    requires IsResolution(path, existing, out)
    ensures out !in existing
  {
    if path in existing {
      var (base, ext) := SplitExt(path);
      var i: nat :| 2 <= i && out == Candidate(base, ext, i) && out !in existing &&
        forall j: nat :: 2 <= j < i ==> Candidate(base, ext, j) in existing;
    }
  }

  lemma SplitOutPdf()
    ensures SplitExt("out.pdf") == ("out", ".pdf")
  {
    assert "out.pdf"[..6] == "out.pd";
    assert "out.pd"[..5] == "out.p";
    assert "out.p"[..4] == "out.";
    assert ExtensionDot("out.") == Some(3);
    assert ExtensionDot("out.p") == Some(3);
    assert ExtensionDot("out.pd") == Some(3);
    assert ExtensionDot("out.pdf") == Some(3);
    assert "out.pdf"[..3] == "out" && "out.pdf"[3..] == ".pdf";
  }

  lemma OutCandidates()
    ensures Candidate("out", ".pdf", 2) == "out(2).pdf" && Candidate("out", ".pdf", 3) == "out(3).pdf"
    ensures "out(2).pdf" != "out.pdf" && "out(3).pdf" != "out.pdf" && "out(3).pdf" != "out(2).pdf"
  {
    assert Digits(2) == "2" && Digits(3) == "3";
    assert "out(2).pdf"[3] != "out.pdf"[3];
    assert "out(3).pdf"[3] != "out.pdf"[3];
    assert "out(3).pdf"[4] != "out(2).pdf"[4];
  }

  /** `out.pdf` taken gives `out(2).pdf`. */
  lemma ResolutionExampleOne(a: string)
    requires IsResolution("out.pdf", {"out.pdf"}, a)
    ensures a == "out(2).pdf"
  {
    SplitOutPdf();
    OutCandidates();
    assert IsResolution("out.pdf", {"out.pdf"}, "out(2).pdf") by {
      assert forall j: nat :: 2 <= j < 2 ==> Candidate("out", ".pdf", j) in {"out.pdf"};
    }
    ResolutionUnique("out.pdf", {"out.pdf"}, a, "out(2).pdf");
  }

  /** `out.pdf` and `out(2).pdf` taken give `out(3).pdf`. */
  lemma ResolutionExampleTwo(b: string)
    requires IsResolution("out.pdf", {"out.pdf", "out(2).pdf"}, b)
    ensures b == "out(3).pdf"
  {
    SplitOutPdf();
    OutCandidates();
    assert IsResolution("out.pdf", {"out.pdf", "out(2).pdf"}, "out(3).pdf") by {
      forall j: nat | 2 <= j < 3 ensures Candidate("out", ".pdf", j) in {"out.pdf", "out(2).pdf"} {
        assert j == 2;
      }
      assert "out(3).pdf" !in {"out.pdf", "out(2).pdf"};
    }
    ResolutionUnique("out.pdf", {"out.pdf", "out(2).pdf"}, b, "out(3).pdf");
  }

  /**
   * Returns `path` when it is free; otherwise tries `base(2)ext`,
   * `base(3)ext`, ... and returns the first free one. The loop ends because
   * every counter it passes names a distinct member of the finite set.
   */
  method NextOutputPath(path: string, existing: set<string>) returns (out: string)
    ensures IsResolution(path, existing, out)
  {
    if path !in existing {
      return path;
    }
    var (base, ext) := SplitExt(path);
    var i: nat := 2;
    ghost var seen: set<string> := {};
    while true
      invariant 2 <= i
      invariant seen <= existing
      invariant forall p :: p in seen ==> exists j: nat :: 2 <= j < i && p == Candidate(base, ext, j)
      invariant forall j: nat :: 2 <= j < i ==> Candidate(base, ext, j) in existing
      decreases existing - seen
    {
      var candidate := Candidate(base, ext, i);
      if candidate !in existing {
        return candidate;
      }
      if candidate in seen {
        var j: nat :| 2 <= j < i && candidate == Candidate(base, ext, j);
        CandidateInjective(base, ext, i, j);
      }
      seen := seen + {candidate};
      i := i + 1;
    }
  }
}
