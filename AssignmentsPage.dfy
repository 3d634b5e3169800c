/** The assignments list page (src/app/pages/assignments/assignments.component.ts): the search
  * over one space-joined line per assignment, and the choice of which list to load. */
module AssignmentsPage {
  import opened Wrappers
  import opened Seqs
  import opened Text
  import opened Models

  /** The searchable line: id, title, class, course, teacher and due date joined by spaces
    * (a missing name joins as nothing), lowercased. */
  function Searchable(a: Assignment): string {
    Lower(Join([IntToString(a.id), a.title, a.className.GetOr(""), a.courseName.GetOr(""),
                a.teacherName.GetOr(""), a.dueDate], " "))
  }

  function MatchesAssignment(query: string): Assignment -> bool {
    (a: Assignment) => Contains(Searchable(a), query)
  }

  /** The line, cut where the title and class name sit next to each other. */
  lemma SearchableLayout(a: Assignment)
    ensures Searchable(a) ==
      Lower(IntToString(a.id) + " ") + Lower(a.title + " " + a.className.GetOr("")) +
      Lower(" " + Join([a.courseName.GetOr(""), a.teacherName.GetOr(""), a.dueDate], " "))
  {
    var rest := [a.courseName.GetOr(""), a.teacherName.GetOr(""), a.dueDate];
    var parts := [IntToString(a.id), a.title, a.className.GetOr("")] + rest;
    var tail := [a.title, a.className.GetOr("")] + rest;
    var tail2 := [a.className.GetOr("")] + rest;
    assert parts[1..] == tail && tail[1..] == tail2 && tail2[1..] == rest;
    assert Join(tail2, " ") == a.className.GetOr("") + " " + Join(rest, " ");
    assert Join(tail, " ") == a.title + " " + Join(tail2, " ");
    assert Join(parts, " ") == IntToString(a.id) + " " + Join(tail, " ");
    assert parts == [IntToString(a.id), a.title, a.className.GetOr(""), a.courseName.GetOr(""),
                     a.teacherName.GetOr(""), a.dueDate];
    var x, y, z := IntToString(a.id) + " ", a.title + " " + a.className.GetOr(""), " " + Join(rest, " ");
    assert Join(parts, " ") == x + y + z;
    LowerAppend(x, y);
    LowerAppend(x + y, z);
  }

  /** Text found in the title, or across the title and the class name, finds the assignment;
    * so does its id. */
  lemma SearchFindsTitleAndClass(a: Assignment, query: string)
    ensures Contains(Lower(a.title), query) ==> MatchesAssignment(query)(a)
    ensures Contains(Lower(a.title + " " + a.className.GetOr("")), query) ==> MatchesAssignment(query)(a)
    ensures MatchesAssignment(Lower(IntToString(a.id)))(a)
  {
    if Contains(Lower(a.title), query) {
      TitleInTitleAndClass(a, query);
    }
    if Contains(Lower(a.title + " " + a.className.GetOr("")), query) {
      TitleAndClassFound(a, query);
    }
    IdFound(a);
  }

  lemma TitleInTitleAndClass(a: Assignment, query: string)
    requires Contains(Lower(a.title), query)
    ensures Contains(Lower(a.title + " " + a.className.GetOr("")), query)
  {
    var y := Lower(a.title + " " + a.className.GetOr(""));
    LowerAppend(a.title, " " + a.className.GetOr(""));
    assert y == Lower(a.title) + Lower(" " + a.className.GetOr(""));
    ContainsInside([], Lower(a.title), Lower(" " + a.className.GetOr("")), query);
    assert [] + Lower(a.title) + Lower(" " + a.className.GetOr("")) == y;
  }

  lemma TitleAndClassFound(a: Assignment, query: string)
    requires Contains(Lower(a.title + " " + a.className.GetOr("")), query)
    ensures MatchesAssignment(query)(a)
  {
    SearchableLayout(a);
    var x := Lower(IntToString(a.id) + " ");
    var y := Lower(a.title + " " + a.className.GetOr(""));
    var z := Lower(" " + Join([a.courseName.GetOr(""), a.teacherName.GetOr(""), a.dueDate], " "));
    ContainsInside(x, y, z, query);
  }

  lemma IdFound(a: Assignment)
    ensures MatchesAssignment(Lower(IntToString(a.id)))(a)
  {
    SearchableLayout(a);
    var y := Lower(a.title + " " + a.className.GetOr(""));
    var z := Lower(" " + Join([a.courseName.GetOr(""), a.teacherName.GetOr(""), a.dueDate], " "));
    var id := Lower(IntToString(a.id));
    LowerAppend(IntToString(a.id), " ");
    assert Searchable(a) == id + (Lower(" ") + y + z);
    assert OccursAt(Searchable(a), id, 0);
    ContainsAt(Searchable(a), id);
  }

  /** Teachers and admins see every assignment; everyone else sees their own
    * (`getStudentAssignments`). */
  datatype AssignmentSource = AllAssignments | StudentAssignments

  function SourceFor(isTeacher: bool, isAdmin: bool): AssignmentSource {
    if isTeacher || isAdmin then AllAssignments else StudentAssignments
  }

  class AssignmentsScreen {
    var allAssignments: seq<Assignment>
    var assignments: seq<Assignment>
    var isLoading: bool
    var searchQuery: string

    constructor()
      ensures allAssignments == [] && assignments == [] && !isLoading && searchQuery == ""
    {
      allAssignments, assignments, isLoading, searchQuery := [], [], false, "";
    }

    /** `applyFilter`: every assignment for the empty query, else the matching ones in order. */
    method ApplyFilter()
      modifies this
      ensures assignments == (if searchQuery == "" then allAssignments else Filter(allAssignments, MatchesAssignment(searchQuery)))
      ensures forall a :: a in assignments <==> a in allAssignments && Contains(Searchable(a), searchQuery)
      ensures IsSubsequence(assignments, allAssignments)
      ensures allAssignments == old(allAssignments) && searchQuery == old(searchQuery) && isLoading == old(isLoading)
    {
      var p := MatchesAssignment(searchQuery);
      if searchQuery == "" {
        assignments := allAssignments;
        forall a | a in allAssignments ensures p(a) {
          ContainsEmpty(Searchable(a));
        }
        FilterAll(allAssignments, p);
      } else {
        assignments := Filter(allAssignments, p);
      }
      FilterSpec(allAssignments, p);
    }

    /** The `q` query parameter, trimmed and lowercased, then the filter re-applied. */
    method OnQueryParams(q: Option<string>)
      modifies this
      ensures assignments == (if searchQuery == "" then allAssignments else Filter(allAssignments, MatchesAssignment(searchQuery)))
      ensures searchQuery == Lower(Trim(q.GetOr("")))
      ensures forall a :: a in assignments <==> a in allAssignments && Contains(Searchable(a), searchQuery)
      ensures IsSubsequence(assignments, allAssignments)
      ensures allAssignments == old(allAssignments) && isLoading == old(isLoading)
    {
      searchQuery := Lower(Trim(q.GetOr("")));
      ApplyFilter();
    }

    /** The start of `loadAssignments`: which list is requested. */
    method LoadAssignments(isTeacher: bool, isAdmin: bool) returns (source: AssignmentSource)
      modifies this
      ensures source == AllAssignments <==> isTeacher || isAdmin
      ensures isLoading
      ensures allAssignments == old(allAssignments) && assignments == old(assignments) && searchQuery == old(searchQuery)
    {
      isLoading := true;
      source := SourceFor(isTeacher, isAdmin);
    }

    /** The success branch of `loadAssignments`. */
    method OnAssignmentsLoaded(items: seq<Assignment>)
      modifies this
      ensures assignments == (if searchQuery == "" then allAssignments else Filter(allAssignments, MatchesAssignment(searchQuery)))
      ensures allAssignments == items && !isLoading && searchQuery == old(searchQuery)
      ensures forall a :: a in assignments <==> a in items && Contains(Searchable(a), searchQuery)
      ensures IsSubsequence(assignments, items)
    {
      allAssignments := items;
      ApplyFilter();
      isLoading := false;
    }

    /** The error branch of `loadAssignments`. */
    method OnAssignmentsFailed()
      modifies this
      ensures !isLoading
      ensures allAssignments == old(allAssignments) && assignments == old(assignments) && searchQuery == old(searchQuery)
    {
      isLoading := false;
    }
  }
}
