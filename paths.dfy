/**
 * String helpers of the demo that build and take apart materialized paths:
 * the employee path join of `createEmployee`, the link-name extraction of
 * `linkEmployeeToOffice`, the parent trim used by `queryOrg`, and the
 * `startsWith` test of `findParentPathsWithPrefix`.
 */
module PathStrings {
  import opened Wrappers

  const Separator: char := '/'

  /** Java's `String.lastIndexOf(c)`: the last index holding `c`, or -1. */
  function LastIndexOf(s: string, c: char): (r: int)
    ensures -1 <= r < |s|
    ensures r >= 0 ==> s[r] == c
    ensures forall j :: r < j < |s| ==> s[j] != c
    decreases |s|
  {
    if |s| == 0 then -1
    else if s[|s| - 1] == c then |s| - 1
    else LastIndexOf(s[..|s| - 1], c)
  }

  /** Java's `startsWith`: the string begins with the prefix. */
  predicate StartsWith(s: string, prefix: string)
  {
    |prefix| <= |s| && s[..|prefix|] == prefix
  }

  /**
   * The group path, a separator, then the employee id: the path under
   * which `createEmployee` creates the employee object and which it returns.
   */
  function EmployeePath(groupPath: string, employeeId: string): (r: string)
    ensures StartsWith(r, groupPath + [Separator])
    ensures |r| == |groupPath| + 1 + |employeeId|
    ensures r[|groupPath| + 1..] == employeeId
  {
    groupPath + [Separator] + employeeId
  }

  /**
   * The text after the last separator of a path, which `linkEmployeeToOffice`
   * uses as the link name when it attaches an employee to an office. With no
   * separator the last index is -1 and the whole string is the result.
   */
  function LinkName(path: string): (r: string)
    ensures Separator !in r
    ensures |r| <= |path| && path[|path| - |r|..] == r
    ensures Separator !in path ==> r == path
    ensures Separator in path ==> |r| < |path| && path[|path| - |r| - 1] == Separator
  {
    path[LastIndexOf(path, Separator) + 1..]
  }

  /**
   * The text before the last separator of a path: the path with its last
   * segment removed. Java throws StringIndexOutOfBoundsException when the
   * path holds no separator (a substring ending at index -1); that is None here.
   */
  function TrimLastSegment(path: string): (r: Option<string>)
    ensures r.Some? <==> Separator in path
    ensures r.Some? ==> r.value + [Separator] + LinkName(path) == path
  {
    var i := LastIndexOf(path, Separator);
    if i < 0 then None
    else
      assert path == path[..i] + [Separator] + path[i + 1..];
      Some(path[..i])
  }

  /** In an employee path the last separator is the one the join inserted. */
  lemma LastSeparatorOfEmployeePath(groupPath: string, employeeId: string)
    requires Separator !in employeeId
    ensures LastIndexOf(EmployeePath(groupPath, employeeId), Separator) == |groupPath|
  {
    var p := EmployeePath(groupPath, employeeId);
    assert p[|groupPath|] == Separator;
    assert forall j :: |groupPath| < j < |p| ==> p[j] == employeeId[j - |groupPath| - 1];
  }

  /** The link name taken from an employee path is the employee id it was built from. */
  lemma LinkNameOfEmployeePath(groupPath: string, employeeId: string)
    requires Separator !in employeeId
    ensures LinkName(EmployeePath(groupPath, employeeId)) == employeeId
  {
    LastSeparatorOfEmployeePath(groupPath, employeeId);
  }

  /** Trimming an employee path gives back the group path it was built from. */
  lemma TrimEmployeePath(groupPath: string, employeeId: string)
    requires Separator !in employeeId
    ensures TrimLastSegment(EmployeePath(groupPath, employeeId)) == Some(groupPath)
  {
    LastSeparatorOfEmployeePath(groupPath, employeeId);
    assert EmployeePath(groupPath, employeeId)[..|groupPath|] == groupPath;
  }
}
