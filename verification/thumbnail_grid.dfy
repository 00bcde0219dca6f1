/** What the thumbnail grid shows for a given state of the project query. */
module ThumbnailGrid {
  import opened Base

  /** The grid's four renderings. */
  datatype View<T> = Skeletons(count: nat) | LoadError | NoThumbnails | Grid(shown: seq<T>)

  /** The number of placeholder cards when no limit is given. */
  const DefaultSkeletons: nat := 6

  function Min(a: int, b: int): int { if a <= b then a else b }
  function Max(a: int, b: int): int { if a >= b then a else b }

  /** JavaScript truthiness of an optional number: present and non-zero. */
  predicate Truthy(limit: Option<int>) {
    limit.Some? && limit.value != 0
  }

  /** `xs.slice(0, end)`: a negative end counts back from the end of the list. */
  function SliceTo<T>(xs: seq<T>, end: int): (r: seq<T>)
    ensures r <= xs
    ensures end >= 0 ==> |r| == Min(end, |xs|)
    ensures end < 0 ==> |r| == Max(|xs| + end, 0)
  {
    var stop := if end < 0 then Max(|xs| + end, 0) else Min(end, |xs|);
    xs[..stop]
  }

  /** `limit ? projects.slice(0, limit) : projects`. */
  function DisplayProjects<T>(projects: seq<T>, limit: Option<int>): (r: seq<T>)
    ensures r <= projects
    ensures !Truthy(limit) ==> r == projects
    ensures limit.Some? && limit.value > 0 ==> |r| == Min(limit.value, |projects|)
    ensures limit.Some? && limit.value < 0 ==> |r| == Max(|projects| + limit.value, 0)
  {
    if Truthy(limit) then SliceTo(projects, limit.value) else projects
  }

  /** `limit || 6` cards, as an array length (a negative length gives none). */
  function SkeletonCount(limit: Option<int>): (n: nat)
    ensures !Truthy(limit) ==> n == DefaultSkeletons
    ensures Truthy(limit) ==> n == Max(limit.value, 0)
  {
    if Truthy(limit) then (if limit.value < 0 then 0 else limit.value) else DefaultSkeletons
  }

  /** The grid's rendering: loading first, then a failed query, then an empty list, then the cards. */
  function Render<T>(isLoading: bool, failed: bool, projects: Option<seq<T>>, limit: Option<int>): (v: View<T>)
    ensures isLoading <==> v.Skeletons?
    ensures isLoading ==> v.count == SkeletonCount(limit)
    ensures v.LoadError? <==> !isLoading && failed
    ensures v.NoThumbnails? <==> !isLoading && !failed && (projects.None? || |projects.value| == 0)
    ensures v.Grid? ==> projects.Some? && v.shown == DisplayProjects(projects.value, limit)
  {
    if isLoading then Skeletons(SkeletonCount(limit))
    else if failed then LoadError
    else match projects
      case None => NoThumbnails
      case Some(ps) => if |ps| == 0 then NoThumbnails else Grid(DisplayProjects(ps, limit))
  }

  /** With a positive limit the grid shows exactly the first `min(limit, n)` projects, in order. */
  lemma PositiveLimitShowsPrefix<T>(ps: seq<T>, limit: int)
    requires |ps| > 0 && limit > 0
    ensures Render(false, false, Some(ps), Some(limit)) == Grid(ps[..Min(limit, |ps|)])
  {
    var shown := DisplayProjects(ps, Some(limit));
    assert shown == ps[..|shown|];
  }

  /** Without a limit, or with limit 0 (falsy), the grid shows the whole list. */
  lemma NoLimitShowsAll<T>(ps: seq<T>, limit: Option<int>)
    requires |ps| > 0 && (limit.None? || limit == Some(0))
    ensures Render(false, false, Some(ps), limit) == Grid(ps)
  {
  }
}
