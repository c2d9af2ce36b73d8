/** Letter grades and the threshold scan both graders use: boundaries are scanned from
    the highest threshold down and the first one the score reaches gives the grade;
    a score below every threshold gets F. */
module Grades {

  datatype Grade = A | B | C | D | F

  /** Position of a grade on the scale, F lowest. */
  function Rank(g: Grade): nat
  {
    match g
    case A => 4
    case B => 3
    case C => 2
    case D => 1
    case F => 0
  }

  /** Index of the first boundary whose threshold is at most `score`, or the number of
      boundaries when the score reaches none. */
  function FirstReached(boundaries: seq<(real, Grade)>, score: real): (i: nat)
    ensures i <= |boundaries|
    ensures i < |boundaries| ==> boundaries[i].0 <= score
    ensures forall j :: 0 <= j < i ==> boundaries[j].0 > score
  {
    if boundaries == [] then 0
    else if boundaries[0].0 <= score then 0
    else 1 + FirstReached(boundaries[1..], score)
  }

  /** The grade of the first boundary reached, F when none is. */
  function GradeFor(boundaries: seq<(real, Grade)>, score: real): Grade
  {
    var i := FirstReached(boundaries, score);
    if i < |boundaries| then boundaries[i].1 else F
  }

  /** One step of the scan. */
  lemma GradeForStep(boundaries: seq<(real, Grade)>, score: real)
    requires boundaries != []
    ensures GradeFor(boundaries, score) ==
      if boundaries[0].0 <= score then boundaries[0].1 else GradeFor(boundaries[1..], score)
  {
    if boundaries[0].0 > score {
      var i := FirstReached(boundaries[1..], score);
      assert FirstReached(boundaries, score) == i + 1;
      if i < |boundaries[1..]| {
        assert boundaries[i + 1] == boundaries[1..][i];
      }
    }
  }

  /** Thresholds strictly decreasing, grades strictly decreasing, all above F. */
  predicate Descending(boundaries: seq<(real, Grade)>)
  {
    && (forall i, j :: 0 <= i < j < |boundaries| ==>
          boundaries[i].0 > boundaries[j].0 && Rank(boundaries[i].1) > Rank(boundaries[j].1))
    && (forall i :: 0 <= i < |boundaries| ==> Rank(boundaries[i].1) > Rank(F))
  }

  /** Boundaries whose neighbours descend in threshold and in grade, ending above F, are
      Descending. */
  lemma DescendingSteps(boundaries: seq<(real, Grade)>)
    requires forall i :: 0 < i < |boundaries| ==>
      boundaries[i - 1].0 > boundaries[i].0 && Rank(boundaries[i - 1].1) > Rank(boundaries[i].1)
    requires boundaries != [] ==> Rank(boundaries[|boundaries| - 1].1) > Rank(F)
    ensures Descending(boundaries)
  {
    forall i, j | 0 <= i < j < |boundaries|
      ensures boundaries[i].0 > boundaries[j].0 && Rank(boundaries[i].1) > Rank(boundaries[j].1)
    {
      DescendingChain(boundaries, i, j);
    }
    forall i | 0 <= i < |boundaries|
      ensures Rank(boundaries[i].1) > Rank(F)
    {
      if i < |boundaries| - 1 {
        DescendingChain(boundaries, i, |boundaries| - 1);
      }
    }
  }

  lemma {:induction false} DescendingChain(boundaries: seq<(real, Grade)>, i: nat, j: nat)
    requires forall i :: 0 < i < |boundaries| ==>
      boundaries[i - 1].0 > boundaries[i].0 && Rank(boundaries[i - 1].1) > Rank(boundaries[i].1)
    requires i < j < |boundaries|
    ensures boundaries[i].0 > boundaries[j].0 && Rank(boundaries[i].1) > Rank(boundaries[j].1)
    decreases j - i
  {
    if i + 1 < j {
      DescendingChain(boundaries, i + 1, j);
    }
  }

  /** A higher score never gets a lower grade. */
  lemma GradeForMonotone(boundaries: seq<(real, Grade)>, s: real, t: real)
    requires Descending(boundaries)
    requires s <= t
    ensures Rank(GradeFor(boundaries, s)) <= Rank(GradeFor(boundaries, t))
  {
    var i, j := FirstReached(boundaries, s), FirstReached(boundaries, t);
    if i < |boundaries| {
      assert j <= i;
      if j < i {
        assert Rank(boundaries[j].1) > Rank(boundaries[i].1);
      }
    }
  }
}
