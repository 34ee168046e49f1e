/**
 * The validation of the generated web bundle: a worklist that follows references from
 * the roots.  The bundle is a finite map from paths to files; a file that cannot be read
 * as text has no contents.  The extraction of references from text is a parameter.
 */
module AssetGraph {
  import opened Common

  type Path = string

  type Bundle = map<Path, Option<string>>

  type References = (Path, string) -> seq<Path>

  datatype Problem =
    | Unsafe(asset: Path)
    | Missing(asset: Path)
    | Unreadable(asset: Path)
    | CannotList
    | Unreferenced(asset: Path)

  const WASM := "assets/wasm/"

  // ----- The tests on a path

  predicate EndsWith(text: string, suffix: string) {
    |suffix| <= |text| && text[|text| - |suffix|..] == suffix
  }

  predicate Contains(text: string, part: string) {
    exists i :: 0 <= i <= |text| && StartsWith(text[i..], part)
  }

  predicate IsConnectArtifact(asset: Path) {
    StartsWith(asset, WASM) &&
    asset[|WASM|..] in ["connect_crypto.js", "connect_crypto_bg.wasm", "connect_crypto.d.ts",
                        "connect_crypto_bg.wasm.d.ts", "connect_crypto.manifest.json"]
  }

  predicate IsSafeReference(asset: Path) {
    !Contains(asset, "..") && '\\' !in asset && ':' !in asset
  }

  /** What follows the last occurrence of `c`. */
  function AfterLast(text: string, c: char): string {
    if c !in text then text else AfterLast(text[1..], c)
  }

  /** What precedes the last occurrence of `c`, or the whole text without one. */
  function BeforeLast(text: string, c: char): string {
    if c !in text then text
    else if c in text[1..] then [text[0]] + BeforeLast(text[1..], c)
    else if text[0] == c then "" else text
  }

  predicate IsHashCharacter(c: char) {
    'a' <= c <= 'z' || 'A' <= c <= 'Z' || '0' <= c <= '9' || c == '_' || c == '-'
  }

  /** A dash and eight hash characters end the stem of the file name. */
  predicate IsHashed(asset: Path) {
    StartsWith(asset, "assets/") &&
    var stem := BeforeLast(AfterLast(asset, '/'), '.');
    |stem| > 9 && stem[|stem| - 9] == '-' && forall i :: |stem| - 8 <= i < |stem| ==> IsHashCharacter(stem[i])
  }

  /** The reference is safe, and hashed or allowlisted. */
  predicate IsAdmissible(asset: Path) {
    IsSafeReference(asset) && (IsHashed(asset) || IsConnectArtifact(asset))
  }

  /** Only scripts and style sheets are read, and the fixed artifacts are leaves. */
  predicate IsScanned(asset: Path) {
    !IsConnectArtifact(asset) && (EndsWith(asset, ".js") || EndsWith(asset, ".css"))
  }

  /** What following one asset finds: a problem with it, and the references it makes. */
  function ProblemsOf(bundle: Bundle, asset: Path): seq<Problem> {
    if !IsAdmissible(asset) then [Unsafe(asset)]
    else if asset !in bundle then [Missing(asset)]
    else if IsScanned(asset) && bundle[asset].None? then [Unreadable(asset)]
    else []
  }

  function Successors(bundle: Bundle, refs: References, asset: Path): seq<Path> {
    if ProblemsOf(bundle, asset) == [] && IsScanned(asset) then refs(asset, bundle[asset].value) else []
  }

  /** The graph that the references make. */
  type Graph = Path -> seq<Path>

  function Links(bundle: Bundle, refs: References): Graph {
    a => Successors(bundle, refs, a)
  }

  // ----- Reachability

  /** A path of references from a root: each asset is a successor of the one before it. */
  ghost predicate IsTrail(links: Graph, roots: seq<Path>, trail: seq<Path>) {
    && trail != [] && trail[0] in roots
    && forall i :: 0 < i < |trail| ==> trail[i] in links(trail[i - 1])
  }

  ghost predicate Reachable(links: Graph, roots: seq<Path>, asset: Path) {
    exists trail :: IsTrail(links, roots, trail) && trail[|trail| - 1] == asset
  }

  lemma RootsReachable(links: Graph, roots: seq<Path>)
    ensures forall r :: r in roots ==> Reachable(links, roots, r)
  {
    forall r | r in roots
      ensures Reachable(links, roots, r)
    {
      assert IsTrail(links, roots, [r]) && [r][|[r]| - 1] == r;
    }
  }

  lemma SuccessorsReachable(links: Graph, roots: seq<Path>, asset: Path)
    requires Reachable(links, roots, asset)
    ensures forall s :: s in links(asset) ==> Reachable(links, roots, s)
  {
    var trail :| IsTrail(links, roots, trail) && trail[|trail| - 1] == asset;
    forall s | s in links(asset)
      ensures Reachable(links, roots, s)
    {
      var longer := trail + [s];
      assert longer[|longer| - 1] == s && IsTrail(links, roots, longer);
    }
  }

  /** A set that holds the roots and is closed under successors holds every reachable asset. */
  lemma {:induction false} ClosedHoldsTrail(links: Graph, roots: seq<Path>, closed: set<Path>, trail: seq<Path>)
    requires IsTrail(links, roots, trail)
    requires forall r :: r in roots ==> r in closed
    requires forall a, s :: a in closed && s in links(a) ==> s in closed
    ensures trail[|trail| - 1] in closed
    decreases |trail|
  {
    if |trail| > 1 {
      var shorter := trail[..|trail| - 1];
      assert IsTrail(links, roots, shorter);
      ClosedHoldsTrail(links, roots, closed, shorter);
      assert trail[|trail| - 1] in links(trail[|trail| - 2]);
    }
  }

  lemma ClosedHoldsReachable(links: Graph, roots: seq<Path>, closed: set<Path>)
    requires Covered(links, roots, closed, [])
    ensures forall a :: Reachable(links, roots, a) ==> a in closed
  {
    forall a | Reachable(links, roots, a)
      ensures a in closed
    {
      var trail :| IsTrail(links, roots, trail) && trail[|trail| - 1] == a;
      ClosedHoldsTrail(links, roots, closed, trail);
    }
  }

  // ----- The finite universe that bounds the work

  /** Every path that a root or a file of the bundle can name. */
  ghost function Named(bundle: Bundle, refs: References, roots: seq<Path>): set<Path> {
    Elements(roots) + set a, s | a in bundle.Keys && bundle[a].Some? && s in refs(a, bundle[a].value) :: s
  }

  lemma SuccessorsNamed(bundle: Bundle, refs: References, roots: seq<Path>, asset: Path)
    ensures forall s :: s in Links(bundle, refs)(asset) ==> s in Named(bundle, refs, roots)
  {
  }

  // ----- The worklist

  /** The problems that following the references of `referenced` finds, in the order of the work. */
  ghost predicate Reports(bundle: Bundle, referenced: set<Path>, problems: seq<Problem>) {
    forall p :: p in problems <==> exists a :: a in referenced && p in ProblemsOf(bundle, a)
  }

  /** Everything a processed asset refers to is processed or waits. */
  ghost predicate Covered(links: Graph, roots: seq<Path>, referenced: set<Path>, pending: seq<Path>) {
    && (forall r :: r in roots ==> r in referenced || r in pending)
    && (forall a, s :: a in referenced && s in links(a) ==> s in referenced || s in pending)
  }

  lemma ReportOne(bundle: Bundle, referenced: set<Path>, problems: seq<Problem>, asset: Path)
    requires Reports(bundle, referenced, problems)
    ensures Reports(bundle, referenced + {asset}, problems + ProblemsOf(bundle, asset))
  {
    forall p
      ensures p in problems + ProblemsOf(bundle, asset) <==>
              exists a :: a in referenced + {asset} && p in ProblemsOf(bundle, a)
    {
      if p in ProblemsOf(bundle, asset) {
        assert asset in referenced + {asset};
      }
      if p in problems {
        var a :| a in referenced && p in ProblemsOf(bundle, a);
        assert a in referenced + {asset};
      }
    }
  }

  /** Follows one asset: its problems and its references. */
  method Follow(bundle: Bundle, refs: References, asset: Path) returns (problems: seq<Problem>, next: seq<Path>)
    ensures problems == ProblemsOf(bundle, asset) && next == Successors(bundle, refs, asset)
  {
    problems, next := [], [];
    var connectArtifact := IsConnectArtifact(asset);
    if !IsSafeReference(asset) || !(IsHashed(asset) || connectArtifact) {
      problems := [Unsafe(asset)];
      return;
    }
    if asset !in bundle {
      problems := [Missing(asset)];
      return;
    }
    if connectArtifact {
      return;
    }
    if !EndsWith(asset, ".js") && !EndsWith(asset, ".css") {
      return;
    }
    if bundle[asset].None? {
      problems := [Unreadable(asset)];
      return;
    }
    next := refs(asset, bundle[asset].value);
  }

  ghost predicate Found(links: Graph, roots: seq<Path>, referenced: set<Path>, pending: seq<Path>) {
    forall a :: a in referenced || a in pending ==> Reachable(links, roots, a)
  }

  lemma HeadOrTail(pending: seq<Path>)
    requires pending != []
    ensures forall p :: p in pending <==> p == pending[0] || p in pending[1..]
  {
    assert pending == [pending[0]] + pending[1..];
  }

  lemma CoverSkip(links: Graph, roots: seq<Path>, referenced: set<Path>, pending: seq<Path>)
    requires Covered(links, roots, referenced, pending) && pending != [] && pending[0] in referenced
    ensures Covered(links, roots, referenced, pending[1..])
  {
    HeadOrTail(pending);
  }

  /** The invariant of the loop: work in a finite universe, on reachable assets, with nothing missed. */
  ghost predicate Working(bundle: Bundle, links: Graph, roots: seq<Path>, universe: set<Path>,
                          referenced: set<Path>, pending: seq<Path>, problems: seq<Problem>)
  {
    && referenced <= universe && (forall p :: p in pending ==> p in universe)
    && Found(links, roots, referenced, pending)
    && Covered(links, roots, referenced, pending)
    && Reports(bundle, referenced, problems)
  }

  lemma SkipKeepsWorking(bundle: Bundle, links: Graph, roots: seq<Path>, universe: set<Path>,
                         referenced: set<Path>, pending: seq<Path>, problems: seq<Problem>)
    requires Working(bundle, links, roots, universe, referenced, pending, problems)
    requires pending != [] && pending[0] in referenced
    ensures Working(bundle, links, roots, universe, referenced, pending[1..], problems)
  {
    HeadOrTail(pending);
    CoverSkip(links, roots, referenced, pending);
  }

  lemma FollowKeepsWorking(bundle: Bundle, links: Graph, roots: seq<Path>, universe: set<Path>,
                           referenced: set<Path>, pending: seq<Path>, problems: seq<Problem>)
    requires Working(bundle, links, roots, universe, referenced, pending, problems)
    requires pending != [] && forall s :: s in links(pending[0]) ==> s in universe
    ensures Working(bundle, links, roots, universe, referenced + {pending[0]}, pending[1..] + links(pending[0]),
                    problems + ProblemsOf(bundle, pending[0]))
  {
    HeadOrTail(pending);
    ReportOne(bundle, referenced, problems, pending[0]);
    SuccessorsReachable(links, roots, pending[0]);
    CoverOne(links, roots, referenced, pending);
  }

  lemma StartWorking(bundle: Bundle, refs: References, roots: seq<Path>)
    ensures Working(bundle, Links(bundle, refs), roots, Named(bundle, refs, roots), {}, roots, [])
  {
    RootsReachable(Links(bundle, refs), roots);
  }

  /** The worklist loop: ends on every bundle, and finds exactly the reachable assets. */
  method FollowReferences(bundle: Bundle, refs: References, roots: seq<Path>)
    returns (referenced: set<Path>, problems: seq<Problem>)
    ensures forall a :: a in referenced <==> Reachable(Links(bundle, refs), roots, a)
    ensures Reports(bundle, referenced, problems)
  {
    referenced, problems := {}, [];
    var pending := roots;
    ghost var universe, links := Named(bundle, refs, roots), Links(bundle, refs);
    StartWorking(bundle, refs, roots);
    while pending != []
      invariant Working(bundle, links, roots, universe, referenced, pending, problems)
      decreases |universe - referenced|, |pending|
    {
      var asset := pending[0];
      if asset in referenced {
        SkipKeepsWorking(bundle, links, roots, universe, referenced, pending, problems);
        pending := pending[1..];
        continue;
      }
      Progress(universe, referenced, asset);
      SuccessorsNamed(bundle, refs, roots, asset);
      FollowKeepsWorking(bundle, links, roots, universe, referenced, pending, problems);
      var found, next := Follow(bundle, refs, asset);
      assert next == links(asset);
      referenced, pending, problems := referenced + {asset}, pending[1..] + next, problems + found;
    }
    WorkDone(bundle, links, roots, universe, referenced, problems);
  }

  /** With nothing left to follow, exactly the reachable assets were followed. */
  lemma WorkDone(bundle: Bundle, links: Graph, roots: seq<Path>, universe: set<Path>,
                 referenced: set<Path>, problems: seq<Problem>)
    requires Working(bundle, links, roots, universe, referenced, [], problems)
    ensures forall a :: a in referenced <==> Reachable(links, roots, a)
    ensures Reports(bundle, referenced, problems)
  {
    ClosedHoldsReachable(links, roots, referenced);
  }

  lemma CoverOne(links: Graph, roots: seq<Path>, referenced: set<Path>, pending: seq<Path>)
    requires Covered(links, roots, referenced, pending) && pending != []
    ensures Covered(links, roots, referenced + {pending[0]}, pending[1..] + links(pending[0]))
  {
    assert pending == [pending[0]] + pending[1..];
  }

  lemma Progress(universe: set<Path>, referenced: set<Path>, asset: Path)
    requires asset in universe && asset !in referenced
    ensures |universe - (referenced + {asset})| < |universe - referenced|
  {
    assert universe - (referenced + {asset}) == (universe - referenced) - {asset};
  }

  /** A listed generated asset must be referenced, except under `assets/wasm/`. */
  predicate MustBeReferenced(asset: Path) { !StartsWith(asset, WASM) }

  /** Nothing is wrong with the asset. */
  predicate IsSound(bundle: Bundle, asset: Path) {
    IsAdmissible(asset) && asset in bundle && (IsScanned(asset) ==> bundle[asset].Some?)
  }

  lemma SoundHasNoProblem(bundle: Bundle, asset: Path)
    ensures IsSound(bundle, asset) <==> forall p :: p !in ProblemsOf(bundle, asset)
  {
    if !IsSound(bundle, asset) {
      assert ProblemsOf(bundle, asset)[0] in ProblemsOf(bundle, asset);
    }
  }

  /** The errors that the source reports: of reachable assets, of the scan, of unreferenced files. */
  ghost predicate IsError(bundle: Bundle, links: Graph, roots: seq<Path>, listing: seq<Path>, listed: bool, p: Problem) {
    || (exists a :: Reachable(links, roots, a) && p in ProblemsOf(bundle, a))
    || (p == CannotList && !listed)
    || (p.Unreferenced? && p.asset in listing && MustBeReferenced(p.asset) && !Reachable(links, roots, p.asset))
  }

  /** The bundle is in order. */
  ghost predicate InOrder(bundle: Bundle, links: Graph, roots: seq<Path>, listing: seq<Path>, listed: bool) {
    && listed
    && (forall a :: Reachable(links, roots, a) ==> IsSound(bundle, a))
    && (forall a :: a in listing && MustBeReferenced(a) ==> Reachable(links, roots, a))
  }

  /** There is no error exactly when the bundle is in order. */
  lemma NoErrorsWhenInOrder(bundle: Bundle, links: Graph, roots: seq<Path>, listing: seq<Path>, listed: bool)
    ensures (forall p :: !IsError(bundle, links, roots, listing, listed, p)) <==> InOrder(bundle, links, roots, listing, listed)
  {
    if forall p :: !IsError(bundle, links, roots, listing, listed, p) {
      assert !IsError(bundle, links, roots, listing, listed, CannotList);
      forall a | Reachable(links, roots, a)
        ensures IsSound(bundle, a)
      {
        SoundHasNoProblem(bundle, a);
        forall p
          ensures p !in ProblemsOf(bundle, a)
        {
          assert !IsError(bundle, links, roots, listing, listed, p);
        }
      }
      forall a | a in listing && MustBeReferenced(a)
        ensures Reachable(links, roots, a)
      {
        assert !IsError(bundle, links, roots, listing, listed, Unreferenced(a));
      }
    } else {
      var p :| IsError(bundle, links, roots, listing, listed, p);
      if a :| Reachable(links, roots, a) && p in ProblemsOf(bundle, a) {
        SoundHasNoProblem(bundle, a);
      }
    }
  }

  /**
   * The source's `validate_asset_graph`.  `listing` is what the directory scan collected,
   * and `listed` whether it ended without an error.
   */
  method ValidateAssetGraph(bundle: Bundle, refs: References, roots: seq<Path>, listing: seq<Path>, listed: bool)
    returns (referenced: set<Path>, errors: seq<Problem>)
    ensures forall a :: a in referenced <==> Reachable(Links(bundle, refs), roots, a)
    ensures forall p :: p in errors <==> IsError(bundle, Links(bundle, refs), roots, listing, listed, p)
    ensures errors == [] <==> InOrder(bundle, Links(bundle, refs), roots, listing, listed)
  {
    referenced, errors := FollowReferences(bundle, refs, roots);
    ghost var links := Links(bundle, refs);
    if !listed {
      errors := errors + [CannotList];
    }
    assert forall p :: p in errors <==>
      (exists a :: Reachable(links, roots, a) && p in ProblemsOf(bundle, a)) || (p == CannotList && !listed);
    errors := AddUnreferenced(referenced, listing, errors);
    NoErrorsWhenInOrder(bundle, links, roots, listing, listed);
    assert errors == [] <==> forall p :: p !in errors by {
      assert errors != [] ==> errors[0] in errors;
    }
  }

  method AddUnreferenced(referenced: set<Path>, listing: seq<Path>, before: seq<Problem>) returns (errors: seq<Problem>)
    ensures forall p :: p in errors <==>
              p in before || (p.Unreferenced? && p.asset in listing && MustBeReferenced(p.asset) && p.asset !in referenced)
  {
    errors := before;
    for i := 0 to |listing|
      invariant forall p :: p in errors <==>
                  p in before || (p.Unreferenced? && p.asset in listing[..i] && MustBeReferenced(p.asset)
                                  && p.asset !in referenced)
    {
      assert listing[..i + 1] == listing[..i] + [listing[i]];
      if StartsWith(listing[i], WASM) {
        continue;
      }
      if listing[i] !in referenced {
        errors := errors + [Unreferenced(listing[i])];
      }
    }
    assert listing[..|listing|] == listing;
  }
}
