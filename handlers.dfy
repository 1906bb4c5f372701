/** The request handlers that change the store, with HTTP, token handling and
    the database session stripped away: one method per handler, over a store
    that holds the rows of every table. */
module Handlers {
  import opened Records
  import opened Mentorship
  import opened TagLinks
  import opened TaskList

  /** The HTTP method that reached the goal handler. */
  datatype GoalVerb = Post | Put

  /** The login answer: the kid id the issued token would carry and whether
      the kid still has to set a goal; or the refusal. */
  datatype LoginReply = Accepted(kidId: nat, register: bool) | Rejected(status: Status)

  /** The kid once a login has offered `phone`: a number already bound is kept. */
  function BindPhone(k: Kid, phone: string): (r: Kid)
    ensures r.phoneNumber.Some?
    ensures k.phoneNumber.Some? ==> r == k
    ensures k.phoneNumber.None? ==> r == k.(phoneNumber := Some(phone))
  {
    if k.phoneNumber.None? then k.(phoneNumber := Some(phone)) else k
  }

  /** The first number offered wins: a later login offering another number
      leaves the kid as the first login left it. */
  lemma BindPhoneFirstWins(k: Kid, first: string, later: string)
    ensures BindPhone(BindPhone(k, first), later) == BindPhone(k, first)
    ensures k.phoneNumber.None? ==> BindPhone(BindPhone(k, first), later).phoneNumber == Some(first)
  {
  }

  /** Attaching the tag ids `added` to the links `have` stores no link twice,
      so the join table's composite primary key holds the new rows: each
      added id is new and is added once. */
  predicate FreshLinks(have: seq<nat>, added: seq<nat>) {
    Distinct(added) && forall id :: id in added ==> id !in have
  }

  /** Fresh links keep the links of one kid or mentor distinct. */
  lemma FreshLinksDistinct(have: seq<nat>, added: seq<nat>)
    requires Distinct(have) && FreshLinks(have, added)
    ensures Distinct(have + added)
  {
    var w := have + added;
    forall i, j | 0 <= i < j < |w| ensures w[i] != w[j] {
      if j >= |have| {
        assert w[j] == added[j - |have|] && w[j] in added;
        if i >= |have| {
          assert w[i] == added[i - |have|];
        } else {
          assert w[i] == have[i];
        }
      }
    }
  }

  /** Updating one kid without touching its id or account keeps both key columns. */
  lemma KidKeysKept(kids: seq<Kid>, i: nat, k: Kid)
    requires i < |kids| && k.id == kids[i].id && k.accountId == kids[i].accountId
    ensures KidIds(kids[i := k]) == KidIds(kids)
    ensures AccountIds(kids[i := k]) == AccountIds(kids)
  {
  }

  lemma TaskIdsTail(tasks: seq<Task>)
    requires |tasks| > 0 && Distinct(TaskIds(tasks))
    ensures Distinct(TaskIds(tasks[1..]))
    ensures forall x :: x in tasks[1..] ==> x.id != tasks[0].id
  {
    assert forall m :: 0 <= m < |tasks| - 1 ==> TaskIds(tasks[1..])[m] == TaskIds(tasks)[m + 1];
    forall x | x in tasks[1..] ensures x.id != tasks[0].id {
      var m :| 0 <= m < |tasks| - 1 && tasks[1..][m] == x;
      assert TaskIds(tasks)[m + 1] == x.id && TaskIds(tasks)[0] == tasks[0].id;
    }
  }

  lemma TaskIdsCons(t: Task, rest: seq<Task>)
    requires Distinct(TaskIds(rest))
    requires forall x :: x in rest ==> x.id != t.id
    ensures Distinct(TaskIds([t] + rest))
  {
    var w := [t] + rest;
    forall i, j | 0 <= i < j < |w| ensures TaskIds(w)[i] != TaskIds(w)[j] {
      assert w[j] == rest[j - 1];
      if i > 0 {
        assert w[i] == rest[i - 1];
        assert TaskIds(rest)[i - 1] != TaskIds(rest)[j - 1];
      }
    }
  }

  /** Removing a kid's tasks keeps the remaining task ids distinct. */
  lemma {:induction false} WithoutKidTasksDistinct(tasks: seq<Task>, kidId: nat)
    requires Distinct(TaskIds(tasks))
    ensures Distinct(TaskIds(WithoutKidTasks(tasks, kidId)))
  {
    if |tasks| > 0 {
      var rest := WithoutKidTasks(tasks[1..], kidId);
      TaskIdsTail(tasks);
      WithoutKidTasksDistinct(tasks[1..], kidId);
      if tasks[0].kidId != kidId {
        TaskIdsCons(tasks[0], rest);
        assert WithoutKidTasks(tasks, kidId) == [tasks[0]] + rest;
      } else {
        assert WithoutKidTasks(tasks, kidId) == rest;
      }
    }
  }

  /** The store: one sequence of rows per table, in insertion order, and the
      ids the next inserted tag and task will get. */
  class Store {
    var kids: seq<Kid>
    var tags: seq<Tag>
    var mentors: seq<Mentor>
    var tasks: seq<Task>
    var propositions: seq<Proposition>
    var nextTagId: nat
    var nextTaskId: nat

    /** The schema's primary keys (those of the join tables included), UNIQUE
        columns and foreign keys. */
    ghost predicate Valid()
      reads this
    {
      && Distinct(KidIds(kids)) && Distinct(AccountIds(kids)) && PhonesDistinct(kids)
      && Distinct(TagIds(tags)) && Distinct(TagNames(tags))
      && (forall t :: t in tags ==> t.id < nextTagId)
      && Distinct(MentorIds(mentors))
      && Distinct(TaskIds(tasks))
      && (forall t :: t in tasks ==> t.id < nextTaskId && t.kidId in KidIds(kids))
      && Distinct(PropositionIds(propositions))
      && (forall k :: k in kids ==> forall id :: id in k.interests ==> id in TagIds(tags))
      && (forall k :: k in kids ==> forall id :: id in k.likes ==> id in MentorIds(mentors))
      && (forall m :: m in mentors ==> forall id :: id in m.expertises ==> id in TagIds(tags))
      // the join tables' composite primary keys: no link is stored twice
      && (forall k :: k in kids ==> Distinct(k.interests) && Distinct(k.likes))
      && (forall m :: m in mentors ==> Distinct(m.expertises))
    }

    /** An empty store; row ids start at 1. */
    constructor ()
      ensures Valid()
      ensures kids == [] && tags == [] && mentors == [] && tasks == [] && propositions == []
      ensures nextTagId == 1 && nextTaskId == 1
    {
      kids, tags, mentors, tasks, propositions := [], [], [], [], [];
      nextTagId, nextTaskId := 1, 1;
    }

    /** POST /login: find the kid by account, bind the phone number on the
        first login only, and report whether the kid still has no goal. */
    method Login(accountId: string, phone: string) returns (reply: LoginReply)
      requires Valid()
      modifies this`kids
      ensures Valid()
      ensures accountId !in AccountIds(old(kids)) ==>
        reply == Rejected(BadRequest) && kids == old(kids)
      ensures accountId in AccountIds(old(kids)) ==>
        var i := IndexOf(AccountIds(old(kids)), accountId).value;
        var k := old(kids)[i];
        if k.phoneNumber.None? && PhoneTaken(old(kids), phone) then
          reply == Rejected(ServerError) && kids == old(kids)
        else
          reply == Accepted(k.id, k.goal.None?) && kids == old(kids)[i := BindPhone(k, phone)]
    {
      var found := IndexOf(AccountIds(kids), accountId);
      if found.None? {
        return Rejected(BadRequest);
      }
      var i := found.value;
      var k := kids[i];
      if k.phoneNumber.None? {
        if PhoneTaken(kids, phone) {
          // the UNIQUE constraint fails the commit
          return Rejected(ServerError);
        }
        KidKeysKept(kids, i, k.(phoneNumber := Some(phone)));
        kids := kids[i := k.(phoneNumber := Some(phone))];
      }
      reply := Accepted(k.id, k.goal.None?);
    }

    /** POST /tags: insert a tag unless the name is already stored. */
    method CreateTag(name: string) returns (status: Status)
      requires Valid()
      modifies this`tags, this`nextTagId
      ensures Valid()
      ensures name in TagNames(old(tags)) ==>
        status == BadRequest && tags == old(tags) && nextTagId == old(nextTagId)
      ensures name !in TagNames(old(tags)) ==>
        status == Created && tags == old(tags) + [Tag(old(nextTagId), name)] &&
        nextTagId == old(nextTagId) + 1
      ensures name in TagNames(tags)
    {
      if name in TagNames(tags) {
        // the UNIQUE constraint fails the commit
        return BadRequest;
      }
      assert TagNames(tags + [Tag(nextTagId, name)]) == TagNames(tags) + [name];
      assert TagIds(tags + [Tag(nextTagId, name)]) == TagIds(tags) + [nextTagId];
      tags := tags + [Tag(nextTagId, name)];
      nextTagId := nextTagId + 1;
      status := Created;
    }

    /** POST /kids/interests: attach to the current kid every requested name
        that resolves to a stored tag, in request order. Only the current
        kid's interests can change; when every resolved tag is new to the kid
        and requested once, exactly those ids are attached. */
    method AddInterests(kidId: nat, names: seq<string>) returns (status: Status)
      requires Valid() && kidId in KidIds(kids)
      modifies this`kids
      ensures Valid()
      ensures var i := IndexOf(KidIds(old(kids)), kidId).value;
        && |kids| == |old(kids)| && i < |kids|
        && (forall j :: 0 <= j < |kids| && j != i ==> kids[j] == old(kids)[j])
        && kids[i] == old(kids)[i].(interests := kids[i].interests)
        && old(kids)[i].interests <= kids[i].interests
        && (forall id :: id in kids[i].interests ==> id in old(kids)[i].interests || id in ResolveTags(tags, names))
        && (FreshLinks(old(kids)[i].interests, ResolveTags(tags, names)) ==>
              status == Ok && kids[i].interests == old(kids)[i].interests + ResolveTags(tags, names))
    {
      var i := IndexOf(KidIds(kids), kidId).value;
      var k0 := kids[i];
      var n := 0;
      assert k0.(interests := k0.interests + ResolveTags(tags, names[..0])) == k0;
      while n < |names|
        invariant 0 <= n <= |names| && i < |old(kids)|
        invariant kids == old(kids)[i := k0.(interests := k0.interests + ResolveTags(tags, names[..n]))]
      {
        assert names[..n + 1][..n] == names[..n];
        var tag := TagNamed(tags, names[n]);
        if tag.Some? {
          assert ResolveTags(tags, names[..n + 1]) == ResolveTags(tags, names[..n]) + [tag.value.id];
          assert k0.interests + ResolveTags(tags, names[..n + 1]) ==
                 (k0.interests + ResolveTags(tags, names[..n])) + [tag.value.id];
          kids := kids[i := kids[i].(interests := kids[i].interests + [tag.value.id])];
        } else {
          assert ResolveTags(tags, names[..n + 1]) == ResolveTags(tags, names[..n]);
        }
        n := n + 1;
      }
      assert names[..n] == names;
      if FreshLinks(k0.interests, ResolveTags(tags, names)) {
        FreshLinksDistinct(k0.interests, ResolveTags(tags, names));
        status := Ok;
      } else {
        // a repeated link: the request is refused as a whole
        kids := kids[i := k0];
        assert kids == old(kids);
        status := ServerError;
      }
      KidKeysKept(old(kids), i, kids[i]);
      assert kids == old(kids)[i := kids[i]];
    }

    /** POST and PUT /kids/goal: set the goal; POST also deletes every task of
        the kid. */
    method SetGoal(kidId: nat, goal: Option<string>, verb: GoalVerb)
      requires Valid() && kidId in KidIds(kids)
      modifies this`kids, this`tasks
      ensures Valid()
      ensures var i := IndexOf(KidIds(old(kids)), kidId).value;
        kids == old(kids)[i := old(kids)[i].(goal := goal)]
      ensures tasks == if verb == Post then WithoutKidTasks(old(tasks), kidId) else old(tasks)
    {
      var i := IndexOf(KidIds(kids), kidId).value;
      KidKeysKept(kids, i, kids[i].(goal := goal));
      kids := kids[i := kids[i].(goal := goal)];
      if verb == Post {
        WithoutKidTasksDistinct(tasks, kidId);
        tasks := WithoutKidTasks(tasks, kidId);
      }
    }

    /** POST /kids/goal/tasks: insert a task of the current kid, not yet done. */
    method CreateTask(kidId: nat, text: string, order: int)
      requires Valid() && kidId in KidIds(kids)
      modifies this`tasks, this`nextTaskId
      ensures Valid()
      ensures tasks == old(tasks) + [Task(old(nextTaskId), kidId, text, order, false)]
      ensures nextTaskId == old(nextTaskId) + 1
    {
      var t := Task(nextTaskId, kidId, text, order, false);
      assert TaskIds(tasks + [t]) == TaskIds(tasks) + [t.id];
      tasks := tasks + [t];
      nextTaskId := nextTaskId + 1;
    }

    /** PUT /kids/goal/tasks: set `done` of the task with this id, whichever
        kid it belongs to. */
    method UpdateTaskDone(taskId: nat, done: bool) returns (status: Status)
      requires Valid()
      modifies this`tasks
      ensures Valid()
      ensures taskId !in TaskIds(old(tasks)) ==> status == NotFound && tasks == old(tasks)
      ensures taskId in TaskIds(old(tasks)) ==>
        var i := IndexOf(TaskIds(old(tasks)), taskId).value;
        status == Ok && tasks == old(tasks)[i := old(tasks)[i].(done := done)]
    {
      var found := IndexOf(TaskIds(tasks), taskId);
      if found.None? {
        return NotFound;
      }
      var i := found.value;
      assert TaskIds(tasks[i := tasks[i].(done := done)]) == TaskIds(tasks);
      tasks := tasks[i := tasks[i].(done := done)];
      status := Ok;
    }

    /** POST /kids/points/add: credit a signed amount to the kid with this
        account, advancing its mentorship state at the threshold. */
    method AddPoints(accountId: string, amount: int)
      requires Valid() && accountId in AccountIds(kids)
      modifies this`kids
      ensures Valid()
      ensures var i := IndexOf(AccountIds(old(kids)), accountId).value;
        kids == old(kids)[i := Credit(old(kids)[i], amount)]
    {
      var i := IndexOf(AccountIds(kids), accountId).value;
      var k := kids[i].(points := kids[i].points + amount);
      if k.points >= MentorshipRequires && k.mentorship == NotEnoughPoints {
        k := k.(mentorship := Uninitialized);
      }
      KidKeysKept(kids, i, k);
      kids := kids[i := k];
    }

    /** POST /mentors/expertises: attach to the mentor every requested name
        that resolves to a stored tag, in request order. An unknown mentor id
        is looked up as nothing: the request succeeds when no name resolves
        and fails with a server error at the first name that does. Only that
        mentor's expertises can change; when every resolved tag is new to the
        mentor and requested once, exactly those ids are attached. */
    method AddExpertises(mentorId: nat, names: seq<string>) returns (status: Status)
      requires Valid()
      modifies this`mentors
      ensures Valid()
      ensures mentorId !in MentorIds(old(mentors)) ==>
        mentors == old(mentors) && status == (if ResolveTags(tags, names) == [] then Ok else ServerError)
      ensures mentorId in MentorIds(old(mentors)) ==>
        var i := IndexOf(MentorIds(old(mentors)), mentorId).value;
        && |mentors| == |old(mentors)| && i < |mentors|
        && (forall j :: 0 <= j < |mentors| && j != i ==> mentors[j] == old(mentors)[j])
        && mentors[i] == old(mentors)[i].(expertises := mentors[i].expertises)
        && old(mentors)[i].expertises <= mentors[i].expertises
        && (forall id :: id in mentors[i].expertises ==> id in old(mentors)[i].expertises || id in ResolveTags(tags, names))
        && (FreshLinks(old(mentors)[i].expertises, ResolveTags(tags, names)) ==>
              status == Ok && mentors[i].expertises == old(mentors)[i].expertises + ResolveTags(tags, names))
    {
      var found := IndexOf(MentorIds(mentors), mentorId);
      if found.None? {
        // the lookup yields nothing, and the first resolved name dereferences it
        return if ResolveTags(tags, names) == [] then Ok else ServerError;
      }
      var i := found.value;
      var m0 := mentors[i];
      var n := 0;
      assert m0.(expertises := m0.expertises + ResolveTags(tags, names[..0])) == m0;
      while n < |names|
        invariant 0 <= n <= |names| && i < |old(mentors)|
        invariant mentors == old(mentors)[i := m0.(expertises := m0.expertises + ResolveTags(tags, names[..n]))]
      {
        assert names[..n + 1][..n] == names[..n];
        var tag := TagNamed(tags, names[n]);
        if tag.Some? {
          assert ResolveTags(tags, names[..n + 1]) == ResolveTags(tags, names[..n]) + [tag.value.id];
          assert m0.expertises + ResolveTags(tags, names[..n + 1]) ==
                 (m0.expertises + ResolveTags(tags, names[..n])) + [tag.value.id];
          mentors := mentors[i := mentors[i].(expertises := mentors[i].expertises + [tag.value.id])];
        } else {
          assert ResolveTags(tags, names[..n + 1]) == ResolveTags(tags, names[..n]);
        }
        n := n + 1;
      }
      assert names[..n] == names;
      assert m0.expertises <= m0.expertises + ResolveTags(tags, names);
      if FreshLinks(m0.expertises, ResolveTags(tags, names)) {
        FreshLinksDistinct(m0.expertises, ResolveTags(tags, names));
        assert mentors[i].expertises == m0.expertises + ResolveTags(tags, names);
        status := Ok;
      } else {
        // a repeated link: the request is refused as a whole
        mentors := mentors[i := m0];
        assert mentors == old(mentors);
        status := ServerError;
      }
      assert MentorIds(mentors) == MentorIds(old(mentors));
    }

    /** POST /kids/mentor/ready: the current kid waits for a mentor, whatever
        its state and balance. */
    method WaitForMentor(kidId: nat)
      requires Valid() && kidId in KidIds(kids)
      modifies this`kids
      ensures Valid()
      ensures var i := IndexOf(KidIds(old(kids)), kidId).value;
        kids == old(kids)[i := old(kids)[i].(mentorship := Waiting)]
    {
      var i := IndexOf(KidIds(kids), kidId).value;
      KidKeysKept(kids, i, kids[i].(mentorship := Waiting));
      kids := kids[i := kids[i].(mentorship := Waiting)];
    }
  }

  /** Creating the same tag name twice: the second request is refused and
      adds nothing. */
  method CreateTagTwice(s: Store, name: string) returns (first: Status, second: Status)
    requires s.Valid()
    modifies s
    ensures s.Valid()
    ensures second == BadRequest
    ensures first == Created <==> name !in TagNames(old(s.tags))
    ensures |s.tags| == |old(s.tags)| + (if first == Created then 1 else 0)
  {
    first := s.CreateTag(name);
    assert name in TagNames(s.tags);
    second := s.CreateTag(name);
  }

  /** Logging in twice with different numbers: the second login answers as
      the first did and changes nothing, so the number bound by the first
      stays. */
  method LoginTwice(s: Store, accountId: string, phone1: string, phone2: string)
    returns (first: LoginReply, second: LoginReply)
    requires s.Valid() && accountId in AccountIds(s.kids)
    modifies s`kids
    ensures s.Valid()
    ensures first.Accepted? ==> second == first
    ensures first.Accepted? ==>
      var i := IndexOf(AccountIds(old(s.kids)), accountId).value;
      s.kids == old(s.kids)[i := BindPhone(old(s.kids)[i], phone1)]
  {
    first := s.Login(accountId, phone1);
    if first.Accepted? {
      ghost var i := IndexOf(AccountIds(old(s.kids)), accountId).value;
      KidKeysKept(old(s.kids), i, BindPhone(old(s.kids)[i], phone1));
    }
    second := s.Login(accountId, phone2);
  }
}
