/**
 * The read side of the demo: the recursive, filtered subtree search
 * `recursiveList` and the parent-path projection `findParentPathsWithPrefix`,
 * over the abstract store of module Directory.
 */
module Query {
  import opened Wrappers
  import opened Directory
  import PathStrings

  /** A `Predicate<ObjectReference>` that may be null. */
  type Filter = Option<ObjectReference -> bool>

  /** The filter is null, or it accepts `x`. */
  predicate Accepts(filter: Filter, x: ObjectReference)
  {
    filter.None? || filter.value(x)
  }

  /** The members of `xs` the filter accepts. */
  function Keep(filter: Filter, xs: set<ObjectReference>): (r: set<ObjectReference>)
    ensures r <= xs
    ensures forall x :: x in xs ==> (x in r <==> Accepts(filter, x))
  {
    set x | x in xs && Accepts(filter, x)
  }

  /** The `$id` references of a set of object ids. */
  function IdRefs(ids: set<ObjectId>): (r: set<ObjectReference>)
    ensures forall d :: d in ids <==> ObjectIdRef(d) in r
    ensures forall x :: x in r ==> IdOfSelector(x.selector).Some? && IdOfSelector(x.selector).value in ids
  {
    set d | d in ids :: ObjectIdRef(d)
  }

  /**
   * The objects strictly below `id`: every child the listing returns and
   * everything below it. A leaf (NotNode) has nothing below it.
   */
  ghost function Below(s: Store, id: ObjectId): set<ObjectId>
    requires Valid(s) && id in s.objects
    decreases Height(s)[id]
  {
    match s.objects[id]
    case NotNode => {}
    case Node(kids) =>
      set l, d | l in kids && d in {kids[l]} + Below(s, kids[l]) :: d
  }

  /**
   * What `recursiveList(obj, filter)` returns: the root and the `$id`
   * references of everything below it, those the filter accepts; a root
   * that resolves to no object raises ResourceNotFound.
   */
  ghost function Search(s: Store, obj: ObjectReference, filter: Filter): (r: Result<set<ObjectReference>, Fault>)
    requires Valid(s)
    ensures r.Failure? <==> Resolve(s, obj).None?
    ensures r.Failure? ==> r.error == ResourceNotFound(obj.selector)
    ensures r.Success? ==> forall x :: x in r.value ==> Accepts(filter, x)
  {
    match Resolve(s, obj)
    case None => Failure(ResourceNotFound(obj.selector))
    case Some(id) => Success(Keep(filter, {obj} + IdRefs(Below(s, id))))
  }

  /**
   * `recursiveList`: depth-first pre-order walk that adds the current object
   * when the filter is null or accepts it, lists its children and adds what
   * the walk below each child returns. NotNodeException from a leaf is
   * caught and means no children.
   */
  method RecursiveList(s: Store, obj: ObjectReference, filter: Filter)
    returns (r: Result<set<ObjectReference>, Fault>)
    requires Valid(s)
    ensures r == Search(s, obj, filter)
    decreases Depth(s, obj)
  {
    var res: set<ObjectReference> := {};
    if filter.None? || filter.value(obj) {
      res := res + {obj};
    }
    var listing := ListChildren(s, obj.selector);
    if listing.Failure? {
      if listing.error == NotNodeError {
        // a leaf: NotNodeException means no children
        assert Path(obj.selector) == obj;
        assert Below(s, Resolve(s, obj).value) == {};
        assert {obj} + IdRefs({}) == {obj};
        assert res == Keep(filter, {obj});
        return Success(res);
      }
      return Failure(listing.error);
    }
    var children := listing.value;
    assert Path(obj.selector) == obj;
    ghost var id := Resolve(s, obj).value;
    assert s.objects[id] == Node(children);
    ghost var gathered: set<ObjectId> := {};
    var todo := children.Keys;
    while todo != {}
      invariant todo <= children.Keys
      invariant gathered == Gather(s, children, children.Keys - todo)
      invariant res == Keep(filter, {obj} + IdRefs(gathered))
      decreases todo
    {
      var link :| link in todo;
      var child := children[link];
      assert Resolve(s, ObjectIdRef(child)) == Some(child);
      var sub := RecursiveList(s, ObjectIdRef(child), filter);
      KeepIdRefsStep(filter, obj, gathered, child, Below(s, child));
      GatherStep(s, children, children.Keys - todo, link);
      assert children.Keys - (todo - {link}) == (children.Keys - todo) + {link};
      res := res + sub.value;
      gathered := gathered + ({child} + Below(s, child));
      todo := todo - {link};
    }
    assert children.Keys - todo == children.Keys;
    GatherAll(s, id);
    return Success(res);
  }

  /** The objects in or below the children reached through `links`. */
  ghost function Gather(s: Store, kids: map<string, ObjectId>, links: set<string>): set<ObjectId>
    requires Valid(s) && links <= kids.Keys
    requires forall l :: l in kids ==> kids[l] in s.objects
  {
    set l, d | l in links && d in {kids[l]} + Below(s, kids[l]) :: d
  }

  lemma GatherStep(s: Store, kids: map<string, ObjectId>, links: set<string>, link: string)
    requires Valid(s) && links <= kids.Keys && link in kids
    requires forall l :: l in kids ==> kids[l] in s.objects
    ensures Gather(s, kids, links + {link}) == Gather(s, kids, links) + ({kids[link]} + Below(s, kids[link]))
  {
  }

  lemma GatherAll(s: Store, id: ObjectId)
    requires Valid(s) && id in s.objects && s.objects[id].Node?
    ensures forall l :: l in s.objects[id].children ==> s.objects[id].children[l] in s.objects
    ensures Gather(s, s.objects[id].children, s.objects[id].children.Keys) == Below(s, id)
  {
  }

  /** Adding the walk below one more child to the result is adding its ids to the gathered set. */
  lemma KeepIdRefsStep(filter: Filter, obj: ObjectReference, gathered: set<ObjectId>, child: ObjectId, below: set<ObjectId>)
    ensures Keep(filter, {obj} + IdRefs(gathered)) + Keep(filter, {ObjectIdRef(child)} + IdRefs(below))
         == Keep(filter, {obj} + IdRefs(gathered + ({child} + below)))
  {
  }

  /** `c` is among the children the listing of `p` returns. */
  ghost predicate IsChild(s: Store, p: ObjectId, c: ObjectId)
  {
    p in s.objects && c in ChildIds(s, p)
  }

  /** A walk: a non-empty sequence of objects, each a listed child of the one before. */
  ghost predicate IsWalk(s: Store, w: seq<ObjectId>)
  {
    |w| >= 1 && forall i :: 0 <= i < |w| - 1 ==> IsChild(s, w[i], w[i + 1])
  }

  /** `b` is reachable from `a` by following one or more returned child links. */
  ghost predicate Reaches(s: Store, a: ObjectId, b: ObjectId)
  {
    exists w :: IsWalk(s, w) && |w| >= 2 && w[0] == a && w[|w| - 1] == b
  }

  /** Everything below an object is reachable from it. */
  lemma {:induction false} BelowReaches(s: Store, id: ObjectId, d: ObjectId)
    requires Valid(s) && id in s.objects && d in Below(s, id)
    ensures Reaches(s, id, d)
    decreases Height(s)[id]
  {
    var kids := s.objects[id].children;
    var l :| l in kids && d in {kids[l]} + Below(s, kids[l]);
    var c := kids[l];
    assert IsChild(s, id, c);
    if d == c {
      assert IsWalk(s, [id, c]);
    } else {
      BelowReaches(s, c, d);
      var w :| IsWalk(s, w) && |w| >= 2 && w[0] == c && w[|w| - 1] == d;
      var w' := [id] + w;
      forall i | 0 <= i < |w'| - 1
        ensures IsChild(s, w'[i], w'[i + 1])
      {
        if i > 0 {
          assert w'[i] == w[i - 1] && w'[i + 1] == w[i];
        }
      }
      assert IsWalk(s, w');
    }
  }

  /** Everything reachable from an object lies below it. */
  lemma {:induction false} ReachesBelow(s: Store, w: seq<ObjectId>)
    requires Valid(s) && IsWalk(s, w) && |w| >= 2
    ensures w[0] in s.objects && w[|w| - 1] in Below(s, w[0])
    decreases |w|
  {
    var id, c, d := w[0], w[1], w[|w| - 1];
    assert IsChild(s, id, c);
    var kids := s.objects[id].children;
    var l :| l in kids && kids[l] == c;
    if |w| > 2 {
      var rest := w[1..];
      forall i | 0 <= i < |rest| - 1
        ensures IsChild(s, rest[i], rest[i + 1])
      {
        assert rest[i] == w[i + 1] && rest[i + 1] == w[i + 2];
      }
      ReachesBelow(s, rest);
      assert d in {kids[l]} + Below(s, kids[l]);
    } else {
      assert d in {kids[l]} + Below(s, kids[l]);
    }
  }

  /** Below is exactly reachability by child links (an independent definition). */
  lemma BelowIsReachable(s: Store, id: ObjectId, d: ObjectId)
    requires Valid(s) && id in s.objects
    ensures d in Below(s, id) <==> Reaches(s, id, d)
  {
    if d in Below(s, id) {
      BelowReaches(s, id, d);
    }
    if Reaches(s, id, d) {
      var w :| IsWalk(s, w) && |w| >= 2 && w[0] == id && w[|w| - 1] == d;
      ReachesBelow(s, w);
    }
  }

  /**
   * With a null filter the search returns the root and exactly the objects
   * reachable from it by following returned child links.
   */
  lemma NullFilterListsReachable(s: Store, obj: ObjectReference)
    requires Valid(s) && Resolve(s, obj).Some?
    ensures Search(s, obj, None).Success?
    ensures forall x :: x in Search(s, obj, None).value <==>
      x == obj || exists d :: Reaches(s, Resolve(s, obj).value, d) && x == ObjectIdRef(d)
  {
    var id := Resolve(s, obj).value;
    forall x
      ensures x in Search(s, obj, None).value <==>
        x == obj || exists d :: Reaches(s, id, d) && x == ObjectIdRef(d)
    {
      if x != obj && x in Search(s, obj, None).value {
        var d := IdOfSelector(x.selector).value;
        BelowIsReachable(s, id, d);
        assert x == ObjectIdRef(d);
      }
      if x != obj && exists d :: Reaches(s, id, d) && x == ObjectIdRef(d) {
        var d :| Reaches(s, id, d) && x == ObjectIdRef(d);
        BelowIsReachable(s, id, d);
      }
    }
  }

  /** The root is in the result exactly when the filter is null or accepts it. */
  lemma RootListedIffAccepted(s: Store, obj: ObjectReference, filter: Filter)
    requires Valid(s) && Resolve(s, obj).Some?
    ensures Search(s, obj, filter).Success?
    ensures obj in Search(s, obj, filter).value <==> filter.None? || filter.value(obj)
  {
  }

  /**
   * Filtering only removes: for any filter the result is the null-filter
   * result cut down to the members the filter accepts.
   */
  lemma FilterSelectsFromUnfiltered(s: Store, obj: ObjectReference, f: ObjectReference -> bool)
    requires Valid(s)
    ensures Search(s, obj, Some(f)).Success? <==> Search(s, obj, None).Success?
    ensures Search(s, obj, Some(f)).Success? ==>
      && Search(s, obj, Some(f)).value <= Search(s, obj, None).value
      && forall x :: x in Search(s, obj, None).value ==> (x in Search(s, obj, Some(f)).value <==> f(x))
  {
  }

  /** A leaf root (its listing raises NotNodeException) gives {root} or {}, and no error. */
  lemma LeafRoot(s: Store, obj: ObjectReference, filter: Filter)
    requires Valid(s) && Resolve(s, obj).Some? && s.objects[Resolve(s, obj).value].NotNode?
    ensures Search(s, obj, filter) == Success(if Accepts(filter, obj) then {obj} else {})
  {
    var id := Resolve(s, obj).value;
    assert Below(s, id) == {};
    assert {obj} + IdRefs({}) == {obj};
    assert Keep(filter, {obj}) == if Accepts(filter, obj) then {obj} else {};
  }

  /** Every object the search lists lies in the root's subtree: nothing outside is listed. */
  lemma ListedAreInSubtree(s: Store, obj: ObjectReference, filter: Filter, x: ObjectReference)
    requires Valid(s) && Search(s, obj, filter).Success? && x in Search(s, obj, filter).value && x != obj
    ensures IdOfSelector(x.selector).Some?
    ensures Reaches(s, Resolve(s, obj).value, IdOfSelector(x.selector).value)
  {
    BelowIsReachable(s, Resolve(s, obj).value, IdOfSelector(x.selector).value);
  }

  /** The prefix test applied to the paths of one object. */
  function PathsWithPrefix(paths: set<string>, prefix: string): (r: set<string>)
    ensures r <= paths
    ensures forall p :: p in paths ==> (p in r <==> PathStrings.StartsWith(p, prefix))
  {
    set p | p in paths && PathStrings.StartsWith(p, prefix)
  }

  /** The index of the first reference that resolves to no object, |roots| if none. */
  ghost predicate FirstUnresolved(s: Store, roots: seq<ObjectReference>, i: int)
  {
    0 <= i < |roots| && Resolve(s, roots[i]).None? &&
    forall j :: 0 <= j < i ==> Resolve(s, roots[j]).Some?
  }

  /**
   * `findParentPathsWithPrefix`: every materialized path of every input
   * object, flattened, kept when it starts with `pathPrefix`. The stream
   * processes the inputs in order, so the first unresolvable reference
   * raises ResourceNotFound.
   */
  function FindParentPathsWithPrefix(s: Store, pathPrefix: string, roots: seq<ObjectReference>)
    : (r: Result<set<string>, Fault>)
    ensures r.Success? <==> forall i :: 0 <= i < |roots| ==> Resolve(s, roots[i]).Some?
    ensures r.Failure? ==> exists i :: FirstUnresolved(s, roots, i) && r.error == ResourceNotFound(roots[i].selector)
    ensures r.Success? ==> forall p :: p in r.value <==>
      PathStrings.StartsWith(p, pathPrefix) &&
      exists i :: 0 <= i < |roots| && p in ParentPaths(s, roots[i]).value
    decreases |roots|
  {
    if roots == [] then Success({})
    else
      match ParentPaths(s, roots[0])
      case Failure(e) =>
        assert FirstUnresolved(s, roots, 0);
        Failure(e)
      case Success(paths) =>
        match FindParentPathsWithPrefix(s, pathPrefix, roots[1..])
        case Failure(e) =>
          ghost var i :| FirstUnresolved(s, roots[1..], i) && e == ResourceNotFound(roots[1..][i].selector);
          assert FirstUnresolved(s, roots, i + 1);
          Failure(e)
        case Success(rest) =>
          assert forall i :: 1 <= i < |roots| ==> roots[i] == roots[1..][i - 1];
          Success(PathsWithPrefix(paths, pathPrefix) + rest)
  }

  /** No objects, no paths. */
  lemma NoObjectsNoPaths(s: Store, pathPrefix: string)
    ensures FindParentPathsWithPrefix(s, pathPrefix, []) == Success({})
  {
  }

  /** Prefix "/" keeps every path of the objects when every path is absolute. */
  lemma RootPrefixKeepsAbsolutePaths(s: Store, roots: seq<ObjectReference>)
    requires forall i :: 0 <= i < |roots| ==> Resolve(s, roots[i]).Some?
    requires forall i, p :: 0 <= i < |roots| && p in ParentPaths(s, roots[i]).value ==> |p| >= 1 && p[0] == '/'
    ensures FindParentPathsWithPrefix(s, "/", roots).Success?
    ensures forall p :: p in FindParentPathsWithPrefix(s, "/", roots).value <==>
      exists i :: 0 <= i < |roots| && p in ParentPaths(s, roots[i]).value
  {
  }

  /**
   * The office step of `queryOrg`: every path mapped to its text before the
   * last separator, collected into a set. A path without a separator makes
   * Java throw StringIndexOutOfBoundsException, which is None here.
   */
  function TrimToParents(paths: set<string>): (r: Option<set<string>>)
    ensures r.Some? <==> forall p :: p in paths ==> PathStrings.Separator in p
    ensures r.Some? ==> forall q :: q in r.value <==>
      exists p :: p in paths && q + [PathStrings.Separator] + PathStrings.LinkName(p) == p
  {
    if forall p :: p in paths ==> PathStrings.Separator in p then
      var parents := set p | p in paths :: PathStrings.TrimLastSegment(p).value;
      assert forall q :: q in parents <==>
        exists p :: p in paths && q + [PathStrings.Separator] + PathStrings.LinkName(p) == p by {
        forall q, p | p in paths && q + [PathStrings.Separator] + PathStrings.LinkName(p) == p
          ensures q == PathStrings.TrimLastSegment(p).value
        {
          var t := PathStrings.TrimLastSegment(p).value;
          assert t + [PathStrings.Separator] + PathStrings.LinkName(p) == p;
          assert |t| == |q|;
          assert t == p[..|t|] && q == p[..|q|];
        }
      }
      Some(parents)
    else None
  }

  /**
   * The office lookup of `queryOrg`: trimming the paths found under a prefix
   * that contains the separator (such as "/locations") never throws.
   */
  lemma TrimAfterPrefixSucceeds(s: Store, pathPrefix: string, roots: seq<ObjectReference>)
    requires PathStrings.Separator in pathPrefix
    requires FindParentPathsWithPrefix(s, pathPrefix, roots).Success?
    ensures TrimToParents(FindParentPathsWithPrefix(s, pathPrefix, roots).value).Some?
  {
  }
}
