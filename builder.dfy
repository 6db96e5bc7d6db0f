/**
 * The path arithmetic of the graph builder: the path `createEmployee`
 * returns for a new employee and the link name `linkEmployeeToOffice`
 * attaches it under in an office. The createObject and attachObject
 * requests themselves are not modelled.
 */
module Builder {
  import opened Wrappers
  import opened Directory
  import PathStrings
  import IdFormats

  /** The parts of the attachObject request `linkEmployeeToOffice` issues. */
  datatype Attachment = Attachment(parent: ObjectReference, linkName: string, child: ObjectReference)

  /**
   * The path `createEmployee` returns: the group path joined with a freshly
   * generated employee id (the random draw supplied as `n`).
   */
  function CreateEmployeePath(groupPath: string, role: IdFormats.EmployeeRole, n: nat): (r: string)
    requires n < IdFormats.IdBound
    ensures PathStrings.TrimLastSegment(r) == Some(groupPath)
    ensures PathStrings.LinkName(r) == IdFormats.GenerateEmployeeId(role, n)
    ensures IdFormats.ParseId(PathStrings.LinkName(r)) == Some((role.Code(), n))
  {
    var id := IdFormats.GenerateEmployeeId(role, n);
    PathStrings.LinkNameOfEmployeePath(groupPath, id);
    PathStrings.TrimEmployeePath(groupPath, id);
    PathStrings.EmployeePath(groupPath, id)
  }

  /**
   * `linkEmployeeToOffice`: attach the object at `employeePath` under the
   * office, with the last segment of the employee path as the link name.
   */
  function LinkEmployeeToOffice(officePath: string, employeePath: string): (r: Attachment)
    ensures r.parent == Path(officePath) && r.child == Path(employeePath)
    ensures r.linkName == PathStrings.LinkName(employeePath)
    ensures PathStrings.Separator !in r.linkName
  {
    Attachment(Path(officePath), PathStrings.LinkName(employeePath), Path(employeePath))
  }

  /**
   * An employee created by `createEmployee` is linked to an office under the
   * same name it was created under: its generated id.
   */
  lemma LinkedUnderEmployeeId(officePath: string, groupPath: string, role: IdFormats.EmployeeRole, n: nat)
    requires n < IdFormats.IdBound
    ensures LinkEmployeeToOffice(officePath, CreateEmployeePath(groupPath, role, n)).linkName
         == IdFormats.GenerateEmployeeId(role, n)
  {
  }
}
