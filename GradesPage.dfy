/** The student grades page (src/app/pages/grades/grades.component.ts): the chip colour of a
  * grade. */
module GradesPage {
  import opened Wrappers

  /** `getGradeColor(grade)`: no grade or 0 is `warn`, from 90 up `primary`, from 70 up
    * `accent`, anything else `warn`. */
  function GradeColor(grade: Option<int>): (color: string)
    ensures grade.None? || grade.value == 0 ==> color == "warn"
    ensures grade.Some? && grade.value != 0 && grade.value >= 90 ==> color == "primary"
    ensures grade.Some? && grade.value != 0 && 70 <= grade.value < 90 ==> color == "accent"
    ensures grade.Some? && grade.value < 70 ==> color == "warn"
  {
    if grade.None? || grade.value == 0 then "warn"
    else if grade.value >= 90 then "primary"
    else if grade.value >= 70 then "accent"
    else "warn"
  }

  /** The three colours ranked from the weakest grade band to the strongest. */
  function Rank(color: string): nat {
    if color == "primary" then 2 else if color == "accent" then 1 else 0
  }

  /** A higher grade never gets a weaker colour. */
  lemma GradeColorMonotone(a: int, b: int)
    requires a <= b
    ensures Rank(GradeColor(Some(a))) <= Rank(GradeColor(Some(b)))
  {
  }

  /** The colour takes exactly the three values. */
  lemma GradeColorRange(grade: Option<int>)
    ensures GradeColor(grade) in {"warn", "accent", "primary"}
  {
  }
}
