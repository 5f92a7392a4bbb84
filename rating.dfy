/**
 * The ESG rating ladder of `categorize_esg_score`: a composite score is mapped
 * to one of six labels by fixed thresholds, checked from the top down.
 */
module Rating {

  /** The six rating categories, best first. */
  datatype Rating = APlus | A | BPlus | B | CPlus | C

  /** The label text the dashboard shows for each category. */
  function Label(r: Rating): string
  {
    match r
    case APlus => "A+ (Excellent)"
    case A => "A (Very Good)"
    case BPlus => "B+ (Good)"
    case B => "B (Fair)"
    case CPlus => "C+ (Below Average)"
    case C => "C (Poor)"
  }

  /** Position of a category on the ladder: 0 for "C (Poor)" up to 5 for "A+ (Excellent)". */
  function Rank(r: Rating): nat
  {
    match r
    case C => 0
    case CPlus => 1
    case B => 2
    case BPlus => 3
    case A => 4
    case APlus => 5
  }

  /**
   * The threshold table, read as closed intervals: a score reaches a category
   * when it is at least that category's lower bound; every score reaches "C (Poor)".
   */
  predicate Reaches(score: real, r: Rating)
  {
    match r
    case APlus => score >= 80.0
    case A => score >= 70.0
    case BPlus => score >= 60.0
    case B => score >= 50.0
    case CPlus => score >= 40.0
    case C => true
  }

  /**
   * The category of a score: the highest-ranked category whose threshold the
   * score reaches (first match wins when the ladder is read top-down).
   */
  function Categorize(score: real): (r: Rating)
    ensures Reaches(score, r)
    ensures forall q: Rating :: Rank(q) > Rank(r) ==> !Reaches(score, q)
  {
    if score >= 80.0 then APlus
    else if score >= 70.0 then A
    else if score >= 60.0 then BPlus
    else if score >= 50.0 then B
    else if score >= 40.0 then CPlus
    else C
  }

  /** Distinct categories carry distinct labels, so the category determines the label and back. */
  lemma LabelInjective(r: Rating, q: Rating)
    requires r != q
    ensures Label(r) != Label(q)
  {
  }

  /** The ladder is monotone: a higher score never gets a lower-ranked category. */
  lemma CategorizeMonotone(x: real, y: real)
    requires x <= y
    ensures Rank(Categorize(x)) <= Rank(Categorize(y))
  {
  }

  /** A score of at least 70 is exactly a score rated "A (Very Good)" or better. */
  lemma HighScoreIffRatedA(score: real)
    ensures score >= 70.0 <==> Rank(Categorize(score)) >= Rank(A)
  {
  }
}
