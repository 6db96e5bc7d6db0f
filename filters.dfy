/**
 * The filters `queryOrg` hands to `recursiveList`. The facet and the
 * attributes of an object are read from the service
 * (`getObjectInformation`, `listObjectAttributes`); here they are functions
 * supplied by the caller, `facetOf` giving the first facet's name.
 */
module Filters {
  import opened Directory
  import IdFormats

  const EmployeeFacet: string := "employee_facet"
  const EmployeeRoleAttribute: string := "employee_role"

  /** `attributeKey(facetName, attributeName)`, scoped to the applied schema. */
  datatype AttributeKey = AttributeKey(schemaArn: string, facetName: string, name: string)

  /** `AttributeKeyAndValue` with a string value; Java compares these by value. */
  datatype AttributeKeyAndValue = AttributeKeyAndValue(key: AttributeKey, stringValue: string)

  /** The filter that accepts an object when the name of its first facet is `facetName`. */
  function FacetIs(facetOf: ObjectReference -> string, facetName: string): (f: ObjectReference -> bool)
    ensures forall x :: f(x) <==> facetOf(x) == facetName
  {
    x => facetOf(x) == facetName
  }

  /** The employee_role attribute holding the `toString()` of a role. */
  function RoleAttribute(schemaArn: string, role: IdFormats.EmployeeRole): (a: AttributeKeyAndValue)
    ensures a.key == AttributeKey(schemaArn, EmployeeFacet, EmployeeRoleAttribute)
    ensures a.stringValue == role.Name()
  {
    AttributeKeyAndValue(AttributeKey(schemaArn, EmployeeFacet, EmployeeRoleAttribute), role.Name())
  }

  /**
   * The filter of the "all SDEs and SDETs" query: an employee whose
   * attribute list contains the role attribute for SDE or for SDET.
   */
  function IsSoftwareEngineer(
    schemaArn: string,
    facetOf: ObjectReference -> string,
    attributesOf: ObjectReference -> seq<AttributeKeyAndValue>): (f: ObjectReference -> bool)
    ensures forall x :: f(x) <==>
      && facetOf(x) == EmployeeFacet
      && (exists i :: 0 <= i < |attributesOf(x)| &&
            attributesOf(x)[i].key == AttributeKey(schemaArn, EmployeeFacet, EmployeeRoleAttribute) &&
            attributesOf(x)[i].stringValue in
              {"SOFTWARE_DEVELOPMENT_ENGINEER", "SOFTWARE_DEVELOPMENT_ENGINEER_IN_TEST"})
  {
    var sde := RoleAttribute(schemaArn, IdFormats.SoftwareDevelopmentEngineer);
    var sdet := RoleAttribute(schemaArn, IdFormats.SoftwareDevelopmentEngineerInTest);
    x => facetOf(x) == EmployeeFacet && (sde in attributesOf(x) || sdet in attributesOf(x))
  }
}
