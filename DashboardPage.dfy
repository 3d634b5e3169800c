/** The dashboard's small decisions (src/app/pages/dashboard/dashboard.component.ts): the greeting
  * for the current hour, the activity icon and where "view all" leads. */
module DashboardPage {

  /** `getGreeting()` for the hour of the current time. */
  function Greeting(hour: int): (text: string)
    ensures hour < 12 <==> text == "Good morning"
    ensures 12 <= hour < 18 <==> text == "Good afternoon"
    ensures hour >= 18 <==> text == "Good evening"
  {
    if hour < 12 then "Good morning" else if hour < 18 then "Good afternoon" else "Good evening"
  }

  function DayPart(text: string): nat {
    if text == "Good morning" then 0 else if text == "Good afternoon" then 1 else 2
  }

  /** Through the day the greeting only moves forward: morning, afternoon, evening. */
  lemma GreetingAdvances(earlier: int, later: int)
    requires earlier <= later
    ensures DayPart(Greeting(earlier)) <= DayPart(Greeting(later))
  {
  }

  /** `getActivityIcon(type)` */
  function ActivityIcon(kind: string): (icon: string)
    ensures kind in {"assignment", "grade", "class"} ==> icon == kind
    ensures kind !in {"assignment", "grade", "class"} ==> icon == "info"
  {
    if kind == "assignment" || kind == "grade" || kind == "class" then kind else "info"
  }

  /** `viewAllActivity()`: Admins go to the courses, everyone else to the assignments. */
  function ViewAllTarget(isAdmin: bool): (route: string)
    ensures isAdmin <==> route == "/courses"
    ensures !isAdmin <==> route == "/assignments"
  {
    if isAdmin then "/courses" else "/assignments"
  }
}
