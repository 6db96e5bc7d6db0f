# Cloud Directory demo: read-side core in Dafny

This project models the part of the Amazon Cloud Directory sample
(`CloudDirectoryDemo.java`) that has logic of its own once the remote
directory service is replaced by an in-memory value:

- the recursive, filtered subtree search `recursiveList` over the children
  listing `children`, where a leaf's `NotNodeException` means "no children";
- the parent-path projection `findParentPathsWithPrefix` and the office trim
  of `queryOrg`, which cuts each path at its last separator;
- the path strings of the graph builder: the employee path join of
  `createEmployee` and the link-name extraction of `linkEmployeeToOffice`;
- the reference selectors `path` and `objectId`;
- the id format of `generateEmployeeId` / `generateOfficeId`.

The directory is a `Store` value (`directory.dfy`): a map from object id to
its listing (`Node(children)`, a link-name to object-id map, or `NotNode`,
which stands for `NotNodeException`), the index the service uses to resolve
path selectors, and a map from object id to its set of materialized paths.
A store is `Valid` when every child link points at a stored object and the
child-of relation admits a rank (it is acyclic); the rank is the
termination measure of the search.

`recursiveList` is an imperative, recursive method (`Query.RecursiveList`)
that builds a local set, adds the root when the filter is null or accepts
it, and loops over the children map adding what each recursive call returns.
It is proved equal to the closed form `Query.Search`, and `Search` is in turn
related to an independent definition of reachability by walks of child
links (`Query.Reaches`). The stream pipelines and string helpers are
functions.

Files: `wrappers.dfy` (Option, Result), `paths.dfy` (PathStrings),
`ids.dfy` (IdFormats), `directory.dfy` (Directory), `query.dfy` (Query),
`filters.dfy` (Filters), `builder.dfy` (Builder), `scenario.dfy` (Scenario:
a small store shaped like the demo's organisation and locations trees).

Notes on what the code does:

- Generated ids use `new Random().nextInt(99999)`, which returns a number in
  [0, 99998]; the bound 99999 is exclusive (`IdFormats.IdBound`).
- The filters are `Predicate<ObjectReference>` values that may be null, not
  predicates over a facet name and attributes; the facet and attributes are
  looked up per reference (`Filters.FacetIs`, `Filters.IsSoftwareEngineer`).
- The traversal catches exactly `NotNodeException`; any other error of the
  store (here: a root reference that resolves to no object) propagates.
- The role attribute holds the enum constant's `toString()`
  (`SOFTWARE_DEVELOPMENT_ENGINEER`), not its short code (`sde`).

## Model

| member | source | states |
|---|---|---|
| `PathStrings.LastIndexOf` | CloudDirectoryDemo.java:482 | the result is -1 or an index of the character, and no later index holds it |
| `PathStrings.EmployeePath` | CloudDirectoryDemo.java:528 | the employee path is the group path, one separator, then the employee id |
| `PathStrings.LinkName` | CloudDirectoryDemo.java:482 | the link name is a suffix of the path with no separator; it is the whole path when there is no separator, otherwise the text after the last one |
| `PathStrings.TrimLastSegment` | CloudDirectoryDemo.java:340 | defined exactly when the path contains a separator (Java throws otherwise); trimmed + "/" + last segment gives the path back |
| `PathStrings.LinkNameOfEmployeePath` | CloudDirectoryDemo.java:482 | for an id without "/", the link name taken from group + "/" + id is the id |
| `PathStrings.TrimEmployeePath` | CloudDirectoryDemo.java:528 | for an id without "/", trimming group + "/" + id gives the group path |
| `IdFormats.Decimal` | CloudDirectoryDemo.java:72 | the printed int is a canonical decimal numeral (digits, no leading zero) whose value is the int |
| `IdFormats.DecimalLength` | CloudDirectoryDemo.java:72 | a numeral has at most k digits exactly when the value is below 10^k |
| `IdFormats.DecimalOfValue` | CloudDirectoryDemo.java:72 | every canonical numeral is the printed form of its value (printing is onto the canonical numerals) |
| `IdFormats.FormatIdRoundTrip` | CloudDirectoryDemo.java:72 | parsing code + "-" + decimal(n) gives back (code, n) |
| `IdFormats.ParseIdInverse` | CloudDirectoryDemo.java:89 | every id the parser accepts is the formatted form of what it parses to |
| `IdFormats.GenerateEmployeeId` | CloudDirectoryDemo.java:71-73 | for 0 <= n < 99999 the id is the role code, "-", at most five digits; it parses back to (code, n) and contains no "/" |
| `IdFormats.GenerateOfficeId` | CloudDirectoryDemo.java:88-90 | the same for the office-type code |
| `Directory.Path` | CloudDirectoryDemo.java:544-546 | the path selector is the path unchanged; an absolute path is never read as an id selector |
| `Directory.ObjectIdRef` | CloudDirectoryDemo.java:548-550 | the id selector is "$" followed by the id, and reading the selector back gives the id |
| `Directory.IdOfSelector` | CloudDirectoryDemo.java:549 | a selector names an id exactly when it starts with "$", and "$" + that id is the selector |
| `Directory.ObjectIdRefInjective` | CloudDirectoryDemo.java:548-550 | distinct ids give distinct references |
| `Directory.Resolve` | CloudDirectoryDemo.java:432 | a resolved reference names a stored object; a "$id" reference resolves to id exactly when id is stored |
| `Directory.ListChildren` | CloudDirectoryDemo.java:444-450 | NotFound exactly when the reference resolves to nothing, NotNode exactly for a leaf, otherwise exactly the object's children map; under Valid every child is stored and lower in rank |
| `Directory.ParentPaths` | CloudDirectoryDemo.java:408-411 | NotFound exactly when the reference resolves to nothing, otherwise the object's set of materialized paths |
| `Query.Search` | CloudDirectoryDemo.java:423-437 | fails exactly when the root does not resolve, with ResourceNotFound; every listed reference passes the filter |
| `Query.RecursiveList` | CloudDirectoryDemo.java:423-437 | the loop over the children map, with recursive calls, returns the root (if accepted) and every accepted object below it, as Search states |
| `Query.BelowReaches` | CloudDirectoryDemo.java:430-432 | every object the recursion descends to is reachable by child links |
| `Query.ReachesBelow` | CloudDirectoryDemo.java:430-432 | every object reachable by child links is one the recursion descends to |
| `Query.BelowIsReachable` | CloudDirectoryDemo.java:429-434 | the objects below the root are exactly those reachable from it by one or more child links |
| `Query.NullFilterListsReachable` | CloudDirectoryDemo.java:423-437 | with a null filter the result is the root plus exactly the objects reachable from it |
| `Query.RootListedIffAccepted` | CloudDirectoryDemo.java:424-427 | the root is in the result exactly when the filter is null or accepts it |
| `Query.FilterSelectsFromUnfiltered` | CloudDirectoryDemo.java:425-432 | a filtered search fails exactly when the unfiltered one does; its result is the unfiltered result cut to the members the filter accepts |
| `Query.LeafRoot` | CloudDirectoryDemo.java:429-434 | a root whose listing raises NotNodeException gives {root} or {} and no error |
| `Query.ListedAreInSubtree` | CloudDirectoryDemo.java:429-434 | every listed reference other than the root is an id reference to an object reachable from the root |
| `Query.PathsWithPrefix` | CloudDirectoryDemo.java:414 | keeps exactly the paths that start with the prefix |
| `Query.FindParentPathsWithPrefix` | CloudDirectoryDemo.java:407-416 | succeeds exactly when every input resolves, else fails on the first unresolved one; on success a path is in the result exactly when it starts with the prefix and is a path of some input |
| `Query.NoObjectsNoPaths` | CloudDirectoryDemo.java:407-416 | no input objects give the empty set |
| `Query.RootPrefixKeepsAbsolutePaths` | CloudDirectoryDemo.java:414 | with prefix "/" and absolute paths, every path of every input is kept |
| `Query.TrimToParents` | CloudDirectoryDemo.java:338-341 | defined exactly when every path has a separator; the result is the set of q with q + "/" + last segment of some path equal to that path |
| `Query.TrimAfterPrefixSucceeds` | CloudDirectoryDemo.java:338-341 | trimming the paths found under a prefix containing "/" (such as "/locations") never throws |
| `Filters.FacetIs` | CloudDirectoryDemo.java:309-310 | the filter accepts exactly the references whose first facet has the given name |
| `Filters.RoleAttribute` | CloudDirectoryDemo.java:328-331 | the key is (applied schema ARN, employee_facet, employee_role) and the value is the role's enum name |
| `Filters.IsSoftwareEngineer` | CloudDirectoryDemo.java:325-334 | accepts exactly employees whose attribute list holds an employee_role entry of SOFTWARE_DEVELOPMENT_ENGINEER or SOFTWARE_DEVELOPMENT_ENGINEER_IN_TEST |
| `Builder.CreateEmployeePath` | CloudDirectoryDemo.java:515-528 | the returned path trims back to the group path, its link name is the generated id, and that id parses back to (role code, n) |
| `Builder.LinkEmployeeToOffice` | CloudDirectoryDemo.java:481-488 | the attachment goes under path(office), points at path(employee), and its link name is the last segment of the employee path, which contains no "/" |
| `Builder.LinkedUnderEmployeeId` | CloudDirectoryDemo.java:482 | an employee created by createEmployee is linked to an office under the same name it was created under (its generated id) |
| `Scenario.SampleSearch` | CloudDirectoryDemo.java:357-358 | in a store where e1 sits under /org/dept/team, the employee-facet search from /org returns exactly {$e1} |
| `Scenario.SampleParentPaths` | CloudDirectoryDemo.java:320 | the two paths of the multi-parent leaf e1 are told apart by prefix: "/loc" keeps only /loc/office1/e1, "/org" only /org/dept/team/e1 |

## Left out

- Query.RecursiveList: requires a `Valid` store (no dangling child link, acyclic child-of relation); the Java code has no such check: on a cycle its non-tail recursion ends in a StackOverflowError (which the NotNodeException handler does not catch), and a dangling child makes it propagate ResourceNotFoundException.
- Query.FindParentPathsWithPrefix: takes the objects as a sequence (the Collection's iteration order); the order only decides which unresolved reference is reported.
- Directory.ListChildren: returns the whole children map; the `withMaxResults(10)` page cap without pagination (only the first page is seen) is not modelled.
- Directory.ParentPaths: returns the whole set of materialized paths; `listObjectParentPaths` reads a single page and never follows the next-page token, so the code sees only what that one page returns.
- Directory.Resolve: how the service resolves a path selector is abstracted as a map from path to object id.
- Filters.FacetIs: the facet is an abstract function of the reference (the first facet `getObjectInformation` returns); the remote call, and the IndexOutOfBoundsException of `.get(0)` on an object with no facet, are not modelled.
- Filters.IsSoftwareEngineer: the attribute list is an abstract function of the reference (`listObjectAttributes` is remote).
- Exceptions other than NotNodeException and ResourceNotFoundException (network, throttling, a filter that throws) are not modelled.
- Schema creation, publishing and the JSON dump, directory creation, and the effect of `createObject`/`attachObject` on the store (including the NODE vs LEAF_NODE cardinality rule, which the code never checks): these live in the remote service.
- `createGroup`, `createRegion`, `createOffice`: they only build createObject requests; only the id format of offices is modelled.
- Index creation, `attachAllToIndex` and the `findEmployeeWithName` range query: they only forward to the service.
- Consistency levels: a per-request setting with no logic in the code.
- `java.util.Random`: the drawn number is a parameter.
- `cleanUp`, credentials, `main`, console logging and the fixed organisation data.
