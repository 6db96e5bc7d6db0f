/**
 * A small directory in the shape the demo builds: /org/dept/team holds the
 * leaf employee e1, which is also attached under /loc/office1.
 */
module Scenario {
  import opened Wrappers
  import opened Directory
  import opened Query
  import Filters
  import PathStrings

  function Sample(): Store
  {
    Store(
      map[
        "root" := Node(map["org" := "org", "loc" := "loc"]),
        "org" := Node(map["dept" := "dept"]),
        "dept" := Node(map["team" := "team"]),
        "team" := Node(map["e1" := "e1"]),
        "loc" := Node(map["office1" := "office1"]),
        "office1" := Node(map["e1" := "e1"]),
        "e1" := NotNode],
      map["/" := "root", "/org" := "org", "/loc" := "loc"],
      map["e1" := {"/org/dept/team/e1", "/loc/office1/e1"}])
  }

  lemma SampleValid()
    ensures Valid(Sample())
  {
    var s := Sample();
    var rank := map["root" := 5, "org" := 4, "dept" := 3, "team" := 2, "loc" := 3, "office1" := 2, "e1" := 1];
    assert s.objects.Keys == {"root", "org", "dept", "team", "loc", "office1", "e1"};
    forall x | x in s.objects
      ensures x in rank
      ensures s.objects[x].Node? ==>
        forall l :: l in s.objects[x].children ==>
          var c := s.objects[x].children[l];
          c in s.objects && c in rank && rank[c] < rank[x]
    {
    }
    assert Ranked(s, rank);
  }

  lemma BelowSingleChild(s: Store, id: ObjectId, link: string, c: ObjectId)
    requires Valid(s) && id in s.objects && s.objects[id] == Node(map[link := c])
    ensures c in s.objects && Below(s, id) == {c} + Below(s, c)
  {
    var kids := map[link := c];
    assert kids.Keys == {link};
    assert IsChild(s, id, c);
  }

  lemma SampleListings()
    ensures Valid(Sample())
    ensures Sample().objects["e1"] == NotNode
    ensures Sample().objects["team"] == Node(map["e1" := "e1"])
    ensures Sample().objects["dept"] == Node(map["team" := "team"])
    ensures Sample().objects["org"] == Node(map["dept" := "dept"])
  {
    SampleValid();
  }

  /** Below /org lie dept, team and the employee e1. */
  lemma SampleBelowOrg()
    ensures Valid(Sample()) && Below(Sample(), "org") == {"dept", "team", "e1"}
  {
    SampleListings();
    var s := Sample();
    assert Below(s, "e1") == {};
    BelowSingleChild(s, "team", "e1", "e1");
    assert Below(s, "team") == {"e1"};
    BelowSingleChild(s, "dept", "team", "team");
    assert Below(s, "dept") == {"team", "e1"};
    BelowSingleChild(s, "org", "dept", "dept");
  }

  /** Searching /org for the employee facet finds e1 and nothing else. */
  lemma SampleSearch(facetOf: ObjectReference -> string)
    requires forall x :: facetOf(x) == (if x == ObjectIdRef("e1") then "employee_facet" else "group_facet")
    ensures Valid(Sample())
    ensures Valid(Sample()) &&
      Search(Sample(), Path("/org"), Some(Filters.FacetIs(facetOf, Filters.EmployeeFacet))) == Success({ObjectIdRef("e1")})
  {
    SampleBelowOrg();
    var s := Sample();
    assert Resolve(s, Path("/org")) == Some("org");
    var f := Filters.FacetIs(facetOf, Filters.EmployeeFacet);
    var refs := {Path("/org")} + IdRefs({"dept", "team", "e1"});
    forall x | x in refs
      ensures Accepts(Some(f), x) <==> x == ObjectIdRef("e1")
    {
    }
    assert ObjectIdRef("e1") in refs;
    assert Keep(Some(f), refs) == {ObjectIdRef("e1")};
  }

  /** The two materialized paths of e1 are told apart by their prefix. */
  lemma SampleParentPaths()
    ensures FindParentPathsWithPrefix(Sample(), "/loc", [ObjectIdRef("e1")]) == Success({"/loc/office1/e1"})
    ensures FindParentPathsWithPrefix(Sample(), "/org", [ObjectIdRef("e1")]) == Success({"/org/dept/team/e1"})
  {
    var s := Sample();
    var e1Paths := {"/org/dept/team/e1", "/loc/office1/e1"};
    assert ParentPaths(s, ObjectIdRef("e1")) == Success(e1Paths);
    assert "/org/dept/team/e1"[1] != "/loc"[1];
    assert "/loc/office1/e1"[1] != "/org"[1];
    assert PathStrings.StartsWith("/org/dept/team/e1", "/org");
    assert PathStrings.StartsWith("/loc/office1/e1", "/loc");
    OnePrefixedPath(s, "/loc", "/loc/office1/e1", e1Paths);
    OnePrefixedPath(s, "/org", "/org/dept/team/e1", e1Paths);
  }

  lemma OnePrefixedPath(s: Store, prefix: string, kept: string, paths: set<string>)
    requires ParentPaths(s, ObjectIdRef("e1")) == Success(paths)
    requires kept in paths && PathStrings.StartsWith(kept, prefix)
    requires forall p :: p in paths && p != kept ==> !PathStrings.StartsWith(p, prefix)
    ensures FindParentPathsWithPrefix(s, prefix, [ObjectIdRef("e1")]) == Success({kept})
  {
    var roots := [ObjectIdRef("e1")];
    var r := FindParentPathsWithPrefix(s, prefix, roots);
    assert r.Success?;
    forall p
      ensures p in r.value <==> p == kept
    {
      if p == kept {
        assert p in ParentPaths(s, roots[0]).value;
      }
    }
    assert r.value == {kept};
  }
}
