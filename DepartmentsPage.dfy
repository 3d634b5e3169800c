/** The departments list page (src/app/pages/departments/departments.component.ts): a per-field
  * search over the loaded departments and the count of shown departments without a head. */
module DepartmentsPage {
  import opened Wrappers
  import opened Seqs
  import opened Text
  import opened Models

  /** The `filter` callback of `applyFilter`: one of name, description, head name or head id
    * (missing text as ""), lowercased, contains the query. */
  predicate MatchesDepartment(d: Department, query: string) {
    var fields := [d.name, d.description, d.headDepartmentName.GetOr(""), d.headDepartmentId];
    exists k :: 0 <= k < |fields| && Contains(Lower(fields[k]), query)
  }

  function Matches(query: string): Department -> bool {
    (d: Department) => MatchesDepartment(d, query)
  }

  /** A department matches exactly when one of its four fields, lowercased, contains the
    * query; the empty query matches every department. */
  lemma MatchesDepartmentSpec(d: Department, query: string)
    ensures MatchesDepartment(d, query) <==>
      Contains(Lower(d.name), query) || Contains(Lower(d.description), query) ||
      Contains(Lower(d.headDepartmentName.GetOr("")), query) || Contains(Lower(d.headDepartmentId), query)
    ensures query == "" ==> MatchesDepartment(d, query)
  {
    var fields := [d.name, d.description, d.headDepartmentName.GetOr(""), d.headDepartmentId];
    if Contains(Lower(d.name), query) { assert Contains(Lower(fields[0]), query); }
    if Contains(Lower(d.description), query) { assert Contains(Lower(fields[1]), query); }
    if Contains(Lower(d.headDepartmentName.GetOr("")), query) { assert Contains(Lower(fields[2]), query); }
    if Contains(Lower(d.headDepartmentId), query) { assert Contains(Lower(fields[3]), query); }
    ContainsEmpty(Lower(d.name));
  }

  /** `filter((dept) => !dept.headDepartmentId).length` */
  function MissingHeads(ds: seq<Department>): (n: nat)
    ensures n <= |ds|
    ensures n == 0 <==> forall d :: d in ds ==> d.headDepartmentId != ""
    ensures n == |ds| <==> forall d :: d in ds ==> d.headDepartmentId == ""
  {
    if ds == [] then 0
    else
      var rest := MissingHeads(ds[1..]);
      assert forall d :: d in ds <==> d == ds[0] || d in ds[1..];
      (if ds[0].headDepartmentId == "" then 1 else 0) + rest
  }

  /** Hiding departments never raises the count: the filtered list has at most as many
    * headless departments as the full one. */
  lemma {:induction false} MissingHeadsOfSubsequence(a: seq<Department>, b: seq<Department>)
    requires IsSubsequence(a, b)
    ensures MissingHeads(a) <= MissingHeads(b)
    decreases |b|
  {
    if a != [] {
      if a[0] == b[0] {
        MissingHeadsOfSubsequence(a[1..], b[1..]);
      } else {
        MissingHeadsOfSubsequence(a, b[1..]);
      }
    }
  }

  class DepartmentsScreen {
    var allDepartments: seq<Department>
    var departments: seq<Department>
    var searchQuery: string

    constructor()
      ensures allDepartments == [] && departments == [] && searchQuery == ""
    {
      allDepartments, departments, searchQuery := [], [], "";
    }

    /** `missingHeadCount`, over the departments currently shown. */
    function MissingHeadCount(): (n: nat)
      reads this
      ensures n <= |departments|
      ensures n == 0 <==> forall d :: d in departments ==> d.headDepartmentId != ""
    {
      MissingHeads(departments)
    }

    /** `applyFilter`: every department for the empty query, else the matching ones in order. */
    method ApplyFilter()
      modifies this
      ensures departments == (if searchQuery == "" then allDepartments else Filter(allDepartments, Matches(searchQuery)))
      ensures forall d :: d in departments <==> d in allDepartments && MatchesDepartment(d, searchQuery)
      ensures IsSubsequence(departments, allDepartments)
      ensures MissingHeadCount() <= MissingHeads(allDepartments)
      ensures allDepartments == old(allDepartments) && searchQuery == old(searchQuery)
    {
      var p := Matches(searchQuery);
      if searchQuery == "" {
        departments := allDepartments;
        forall d | d in allDepartments ensures p(d) {
          MatchesDepartmentSpec(d, "");
        }
        FilterAll(allDepartments, p);
      } else {
        departments := Filter(allDepartments, p);
      }
      FilterSpec(allDepartments, p);
      MissingHeadsOfSubsequence(departments, allDepartments);
    }

    /** The `q` query parameter, trimmed and lowercased, then the filter re-applied. */
    method OnQueryParams(q: Option<string>)
      modifies this
      ensures departments == (if searchQuery == "" then allDepartments else Filter(allDepartments, Matches(searchQuery)))
      ensures searchQuery == Lower(Trim(q.GetOr("")))
      ensures forall d :: d in departments <==> d in allDepartments && MatchesDepartment(d, searchQuery)
      ensures IsSubsequence(departments, allDepartments)
      ensures allDepartments == old(allDepartments)
    {
      searchQuery := Lower(Trim(q.GetOr("")));
      ApplyFilter();
    }

    /** The success branch of `loadDepartments`. */
    method OnDepartmentsLoaded(items: seq<Department>)
      modifies this
      ensures departments == (if searchQuery == "" then allDepartments else Filter(allDepartments, Matches(searchQuery)))
      ensures allDepartments == items && searchQuery == old(searchQuery)
      ensures forall d :: d in departments <==> d in items && MatchesDepartment(d, searchQuery)
      ensures IsSubsequence(departments, items)
    {
      allDepartments := items;
      ApplyFilter();
    }
  }
}
