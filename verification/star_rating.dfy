/** The star selector used to rate a collaborator: five buttons, the last
    one clicked is the rating, and submitting sends it as is. */
module StarRating {
  import opened Models
  import UserCards

  /** The value of one of the five star buttons. */
  type Star = s: int | 1 <= s <= 5 witness 1

  /** The selector starts with no star chosen. */
  const Initial: int := 0

  /** Clicking a star makes its value the rating, whatever was chosen
      before. */
  function Click(rating: int, s: Star): (r: int)
    ensures ValidScore(r) && r == s
  {
    s
  }

  function Clicks(rating: int, stars: seq<Star>): (r: int)
    ensures |stars| == 0 ==> r == rating
    ensures |stars| > 0 ==> r == stars[|stars| - 1]
  {
    if |stars| == 0 then rating else Click(Clicks(rating, stars[..|stars| - 1]), stars[|stars| - 1])
  }

  /** Star `s` is drawn highlighted when `s <= rating`; the buttons in
      order 1 to 5. */
  function Highlights(rating: int): (h: seq<bool>)
    ensures |h| == 5
    ensures forall i :: 0 <= i < 5 ==> (h[i] <==> i + 1 <= rating)
  {
    seq(5, i requires 0 <= i < 5 => i + 1 <= rating)
  }

  /** Exactly `rating` stars light up: none before the first click, and the
      clicked star with every star below it after. */
  lemma HighlightCount(rating: int)
    requires 0 <= rating <= 5
    ensures UserCards.CountFull(Highlights(rating)) == rating
  {
    UserCards.CountFullPrefix(Highlights(rating), rating);
  }

  /** The body `submitRating` posts. */
  datatype Submission = Submission(taskId: string, collaboratorId: string, rating: int)

  function Submit(taskId: string, collaboratorId: string, rating: int): (p: Submission)
    ensures p.rating == rating && p.taskId == taskId && p.collaboratorId == collaboratorId
  {
    Submission(taskId, collaboratorId, rating)
  }

  /** Submitted straight after opening, the selector sends 0; after any
      click it sends a score the rating schema accepts. */
  lemma SubmittedScoreValid(stars: seq<Star>, taskId: string, collaboratorId: string)
    ensures ValidScore(Submit(taskId, collaboratorId, Clicks(Initial, stars)).rating) <==> |stars| > 0
  {
  }
}
