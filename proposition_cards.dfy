/** The proposition card: a reward's detail, whose `content` only a kid with
    enough points gets to see. */
module PropositionCards {
  import opened Records
  import opened Mentorship

  /** The card object; `content` is absent when it is withheld. */
  datatype CardView = CardView(
    title: string,
    image: Option<string>,
    description: Option<string>,
    kind: string,
    points: int,
    content: Option<string>)

  /** The card `kid` is shown for proposition `p`. */
  function Card(kid: Kid, p: Proposition): (c: CardView)
    ensures c.title == p.title && c.image == p.image && c.description == p.description
    ensures c.kind == p.kind && c.points == p.pointsRequired
    ensures c.content.Some? <==> kid.points >= p.pointsRequired
    ensures c.content.Some? ==> c.content.value == p.content
  {
    CardView(p.title, p.image, p.description, p.kind, p.pointsRequired,
             if kid.points >= p.pointsRequired then Some(p.content) else None)
  }

  /** A balance exactly at the price already reveals the content. */
  lemma CardRevealsAtEquality(kid: Kid, p: Proposition)
    requires kid.points == p.pointsRequired
    ensures Card(kid, p).content == Some(p.content)
  {
  }

  /** Earning points never hides content that was shown, and changes no
      field of the card but the content. */
  lemma CardAfterCredit(kid: Kid, p: Proposition, amount: int)
    requires amount >= 0
    ensures Card(kid, p).content.Some? ==> Card(Credit(kid, amount), p).content.Some?
    ensures Card(Credit(kid, amount), p).(content := None) == Card(kid, p).(content := None)
  {
  }
}
