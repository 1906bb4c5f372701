/** The rows of the platform's relational store (kids, tags, mentors, tasks,
    propositions), modelled as values, and the lookups by key that the
    handlers perform on them. */
module Records {

  datatype Option<T> = None | Some(value: T)

  /** Progression of a kid towards being paired with a mentor. */
  datatype MentorshipState = NotEnoughPoints | Uninitialized | Waiting | Mentored

  /** A kid; `interests` and `likes` hold the ids of the attached tags and
      mentors, in the order they were attached. The kid's tasks are the
      task rows whose `kidId` is this kid's id. */
  datatype Kid = Kid(
    id: nat,
    phoneNumber: Option<string>,
    accountId: string,
    name: string,
    birthDate: string,
    goal: Option<string>,
    points: int,
    avatar: Option<string>,
    mentorship: MentorshipState,
    interests: seq<nat>,
    likes: seq<nat>)

  datatype Tag = Tag(id: nat, name: string)

  /** A mentor; `expertises` holds the ids of the attached tags. */
  datatype Mentor = Mentor(
    id: nat,
    name: string,
    photo: Option<string>,
    position: string,
    bio: string,
    expertises: seq<nat>)

  datatype Task = Task(id: nat, kidId: nat, text: string, order: int, done: bool)

  /** A reward catalog entry; `kind` is the column named `type`. */
  datatype Proposition = Proposition(
    id: nat,
    title: string,
    description: Option<string>,
    image: Option<string>,
    pointsRequired: int,
    kind: string,
    content: string)

  /** The HTTP status a handler answers with: 200, 201, 400, 404 or 500. */
  datatype Status = Ok | Created | BadRequest | NotFound | ServerError

  /** No key occurs twice: what a primary key or UNIQUE column guarantees. */
  predicate Distinct<K(==)>(s: seq<K>) {
    forall i, j :: 0 <= i < j < |s| ==> s[i] != s[j]
  }

  /** The position of the first row whose key is `k`, if any. */
  function IndexOf<K(==)>(s: seq<K>, k: K): (r: Option<nat>)
    ensures r.Some? <==> k in s
    ensures r.Some? ==> r.value < |s| && s[r.value] == k && k !in s[..r.value]
  {
    if |s| == 0 then None
    else if s[0] == k then Some(0)
    else
      match IndexOf(s[1..], k)
      case None => None
      case Some(j) =>
        assert s[..j + 1] == [s[0]] + s[1..][..j];
        Some(j + 1)
  }

  /** Under a UNIQUE key, the lookup finds the one row holding the key. */
  lemma IndexOfDistinct<K>(s: seq<K>, i: nat)
    requires Distinct(s) && i < |s|
    ensures IndexOf(s, s[i]) == Some(i)
  {
  }

  function KidIds(kids: seq<Kid>): seq<nat> {
    seq(|kids|, i requires 0 <= i < |kids| => kids[i].id)
  }

  function AccountIds(kids: seq<Kid>): seq<string> {
    seq(|kids|, i requires 0 <= i < |kids| => kids[i].accountId)
  }

  function TagIds(tags: seq<Tag>): seq<nat> {
    seq(|tags|, i requires 0 <= i < |tags| => tags[i].id)
  }

  function TagNames(tags: seq<Tag>): seq<string> {
    seq(|tags|, i requires 0 <= i < |tags| => tags[i].name)
  }

  function MentorIds(mentors: seq<Mentor>): seq<nat> {
    seq(|mentors|, i requires 0 <= i < |mentors| => mentors[i].id)
  }

  function TaskIds(tasks: seq<Task>): seq<nat> {
    seq(|tasks|, i requires 0 <= i < |tasks| => tasks[i].id)
  }

  function PropositionIds(propositions: seq<Proposition>): seq<nat> {
    seq(|propositions|, i requires 0 <= i < |propositions| => propositions[i].id)
  }

  /** The UNIQUE phone_number column: several kids may have none, but no
      number is bound to two kids. */
  predicate PhonesDistinct(kids: seq<Kid>) {
    forall i, j :: 0 <= i < j < |kids| && kids[i].phoneNumber.Some? ==>
      kids[i].phoneNumber != kids[j].phoneNumber
  }

  /** Whether some kid already holds `phone`. */
  predicate PhoneTaken(kids: seq<Kid>, phone: string) {
    exists i :: 0 <= i < |kids| && kids[i].phoneNumber == Some(phone)
  }
}
