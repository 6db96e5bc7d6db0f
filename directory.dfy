/**
 * An abstract, in-memory stand-in for the Cloud Directory store as the
 * demo's read side sees it: object references (selectors), the children
 * listing of an object (or NotNodeException for a leaf), and the set of
 * materialized paths of an object.
 */
module Directory {
  import opened Wrappers

  /** The store-assigned object identifier. */
  type ObjectId = string

  /** An `ObjectReference`: a selector that is either a path or `$` followed by an object id. */
  datatype ObjectReference = ObjectReference(selector: string)

  const IdSigil: char := '$'

  /** The answer of `listObjectChildren`: a link-name to object-id map, or NotNodeException. */
  datatype Listing = Node(children: map<string, ObjectId>) | NotNode

  /**
   * The store: each object's listing, the path index the service uses to
   * resolve path selectors, and each object's materialized paths.
   */
  datatype Store = Store(
    objects: map<ObjectId, Listing>,
    paths: map<string, ObjectId>,
    parentPaths: map<ObjectId, set<string>>)

  /** Errors the store raises that the model keeps. */
  datatype Fault =
    | NotNodeError                      // NotNodeException: listing the children of a leaf
    | ResourceNotFound(selector: string) // the reference resolves to no object

  /** `path(p)`: a reference whose selector is the path itself. */
  function Path(p: string): (r: ObjectReference)
    ensures r.selector == p
    ensures |p| >= 1 && p[0] == '/' ==> IdOfSelector(r.selector) == None
  {
    ObjectReference(p)
  }

  /** `objectId(id)`: a reference whose selector is `$` followed by the id. */
  function ObjectIdRef(id: ObjectId): (r: ObjectReference)
    ensures IdOfSelector(r.selector) == Some(id)
    ensures |r.selector| == |id| + 1 && r.selector[0] == IdSigil
  {
    ObjectReference([IdSigil] + id)
  }

  /** The object id an id selector names; None for a path selector. */
  function IdOfSelector(selector: string): (r: Option<ObjectId>)
    ensures r.Some? <==> |selector| >= 1 && selector[0] == IdSigil
    ensures r.Some? ==> [IdSigil] + r.value == selector
  {
    if |selector| >= 1 && selector[0] == IdSigil then Some(selector[1..]) else None
  }

  /** `objectId` is injective: distinct ids give distinct references. */
  lemma ObjectIdRefInjective(a: ObjectId, b: ObjectId)
    ensures ObjectIdRef(a) == ObjectIdRef(b) <==> a == b
  {
  }

  /** The object a reference denotes, if any, as the service resolves it. */
  function Resolve(s: Store, ref: ObjectReference): (r: Option<ObjectId>)
    ensures r.Some? ==> r.value in s.objects
    ensures IdOfSelector(ref.selector).Some? ==>
      r == (if IdOfSelector(ref.selector).value in s.objects then IdOfSelector(ref.selector) else None)
  {
    match IdOfSelector(ref.selector)
    case Some(id) => if id in s.objects then Some(id) else None
    case None =>
      if ref.selector in s.paths && s.paths[ref.selector] in s.objects
      then Some(s.paths[ref.selector]) else None
  }

  /** `rank` witnesses that every child link points at a stored object of smaller rank. */
  ghost predicate Ranked(s: Store, rank: map<ObjectId, nat>)
  {
    forall x :: x in s.objects ==>
      && x in rank
      && (s.objects[x].Node? ==>
            forall l :: l in s.objects[x].children ==>
              var c := s.objects[x].children[l];
              c in s.objects && c in rank && rank[c] < rank[x])
  }

  /**
   * A well-formed store: children links never dangle and the child-of
   * relation is acyclic (it admits a rank).
   */
  ghost predicate Valid(s: Store)
  {
    exists rank :: Ranked(s, rank)
  }

  /** One rank for a valid store, used as the termination measure of the traversal. */
  ghost function Height(s: Store): (rank: map<ObjectId, nat>)
    requires Valid(s)
    ensures Ranked(s, rank)
  {
    var rank :| Ranked(s, rank); rank
  }

  /** The height of the object a reference denotes, 0 if it denotes none. */
  ghost function Depth(s: Store, ref: ObjectReference): nat
    requires Valid(s)
  {
    match Resolve(s, ref)
    case Some(id) => Height(s)[id]
    case None => 0
  }

  /** The ids the children listing of object `id` links to (none for a leaf). */
  function ChildIds(s: Store, id: ObjectId): (r: set<ObjectId>)
    requires id in s.objects
    ensures s.objects[id].NotNode? ==> r == {}
    ensures s.objects[id].Node? ==> r == s.objects[id].children.Values
  {
    match s.objects[id]
    case Node(kids) => kids.Values
    case NotNode => {}
  }

  /**
   * `listObjectChildren` on `path(selector)`: the children map of the
   * object, NotNodeException for a leaf, ResourceNotFound when nothing is
   * there. Under Valid every returned child id is a stored object of smaller height.
   */
  function ListChildren(s: Store, selector: string): (r: Result<map<string, ObjectId>, Fault>)
    ensures r == Failure(ResourceNotFound(selector)) <==> Resolve(s, Path(selector)).None?
    ensures r == Failure(NotNodeError) <==>
      Resolve(s, Path(selector)).Some? && s.objects[Resolve(s, Path(selector)).value].NotNode?
    ensures r.Success? ==>
      && Resolve(s, Path(selector)).Some?
      && s.objects[Resolve(s, Path(selector)).value].Node?
      && r.value == s.objects[Resolve(s, Path(selector)).value].children
      && r.value.Values == ChildIds(s, Resolve(s, Path(selector)).value)
    ensures r.Success? && Valid(s) ==>
      forall l :: l in r.value ==>
        r.value[l] in s.objects && Height(s)[r.value[l]] < Depth(s, Path(selector))
  {
    match Resolve(s, Path(selector))
    case None => Failure(ResourceNotFound(selector))
    case Some(id) =>
      match s.objects[id]
      case NotNode => Failure(NotNodeError)
      case Node(kids) => Success(kids)
  }

  /** `listObjectParentPaths`: the materialized paths of the object a reference denotes. */
  function ParentPaths(s: Store, ref: ObjectReference): (r: Result<set<string>, Fault>)
    ensures r.Failure? <==> Resolve(s, ref).None?
    ensures r.Failure? ==> r.error == ResourceNotFound(ref.selector)
    ensures r.Success? ==> Resolve(s, ref).value in s.parentPaths ==> r.value == s.parentPaths[Resolve(s, ref).value]
    ensures r.Success? ==> Resolve(s, ref).value !in s.parentPaths ==> r.value == {}
  {
    match Resolve(s, ref)
    case None => Failure(ResourceNotFound(ref.selector))
    case Some(id) => Success(if id in s.parentPaths then s.parentPaths[id] else {})
  }
}
