# Mentorship platform backend: a verified model of its business rules

The backend of a youth mentorship platform lets kids log in, pick interests
from a shared tag vocabulary, set a goal broken into ordered tasks, earn
points, see reward propositions whose content is gated by their balance,
and ask for a mentor. Every handler of `app.py` reads and writes rows of a
relational store. This project keeps the rules and drops HTTP, tokens and
the database session.

The model has these parts:

- `Records` holds one datatype per table: `Kid`, `Tag`, `Mentor`, `Task`
  and `Proposition`. It also holds the mentorship state enum and the HTTP
  statuses the handlers answer with. Rows are found by key through
  `IndexOf`.
- `Mentorship` holds the points balance and the state machine
  `not_enough_points -> uninitialized -> waiting -> mentored`. The
  threshold is 1000.
- `TagSearch` is the case-insensitive prefix search over tag names.
- `TagLinks` turns requested tag names into stored tags. Interests and
  expertises use it.
- `TaskList` has the task listing (sorted by `order`, projected to
  id/text/done) and the bulk task removal of a goal reset.
- `PropositionCards` builds the proposition card, with `content` gated on
  the kid's balance.
- `Handlers` has the class `Store`. It holds one sequence of rows per
  table and the ids of the next tag and task. Its predicate `Valid()`
  states the schema's keys:
  - distinct kid ids, accounts and phone numbers;
  - distinct tag ids and tag names;
  - distinct task, mentor and proposition ids;
  - every task belongs to a stored kid;
  - every interest, like and expertise points to a stored row;
  - no kid holds an interest or a like twice, and no mentor an expertise
    (the join tables' composite primary keys).

  Each handler that changes state is a method of `Store`. It keeps
  `Valid()` and states the new store in terms of the old one (the whole
  new store, except after a repeated link, as listed under "Left out").

Points to know when reading the model:

- The "current kid", which the source takes from the identity token, is
  passed in as a kid id that must exist.
- The login reply carries the kid id the token would hold.
- A login with an unknown account is refused with 400 (`abort(400)`,
  app.py:134-135).
- The source binds a phone number and then commits. If another kid already
  holds that number, the UNIQUE column fails the commit and the handler
  has no handler for that error, so the answer is a 500 and nothing
  changes. `Store.Login` models that answer as `ServerError`.
- The task update by id does not check that the task belongs to the
  requesting kid. The model keeps that: `Store.UpdateTaskDone` takes no kid.
- `Store.WaitForMentor` sets `waiting` from any state. No handler ever sets
  `mentored`. If a kid were `mentored`, the call would move it back to
  `waiting`.

## Model

| member | source | states |
|---|---|---|
| `Records.IndexOf` | app.py:133 | the lookup by key finds a row exactly when some row holds the key; it returns the first such position |
| `Records.IndexOfDistinct` | app.py:40 | under a UNIQUE key, the lookup returns the one row that holds the key |
| `Mentorship.Advance` | app.py:280-281 | the state becomes `Uninitialized` exactly when it was `NotEnoughPoints` with a balance of at least 1000, or was already `Uninitialized`; every other state is unchanged; the stage never goes down and rises by at most one |
| `Mentorship.Credit` | app.py:279-281 | the balance grows by the signed amount; the state follows `Advance` at the new balance; no other field of the kid changes |
| `Mentorship.CreditAllPoints` | app.py:279 | over any run of credits, the final balance is the start plus the sum of the amounts |
| `Mentorship.CreditAllNeverRegresses` | app.py:280-281 | once a kid has left `NotEnoughPoints`, no run of credits changes its state, even when the balance drops below 1000 |
| `Mentorship.CreditAllMentorship` | app.py:276-283 | a kid in `NotEnoughPoints` ends in `Uninitialized` exactly when some running balance after a credit reached 1000; otherwise it stays in `NotEnoughPoints` |
| `TagSearch.LowerChar` | app.py:146 | an upper-case ASCII letter becomes its lower-case letter; every other character is kept; no upper-case letter comes out |
| `TagSearch.Lower` | app.py:146-148 | the lower-cased string has the same length; each upper-case ASCII letter becomes its lower-case letter, every other character is kept, and no upper-case letter is left |
| `TagSearch.Matches` | app.py:148 | a name matches a query exactly when the query is no longer than the name and agrees with its start character by character, after lower-casing both |
| `TagSearch.FilterByPrefix` | app.py:148 | the kept names are stored names that match the query, no more of them than stored; `FilterByPrefixCounts`, `FilterByPrefixIsSubsequence` and `FilterByPrefixUnique` state the result in full |
| `TagSearch.SearchTags` | app.py:146-148 | a name is in the search result exactly when it is a stored tag name that matches the query |
| `TagSearch.FilterByPrefixCounts` | app.py:146-148 | the search keeps each name whose lower-cased form starts with the lower-cased query, as often as it is stored, and no other name |
| `TagSearch.FilterByPrefixIsSubsequence` | app.py:148 | the search result keeps store order: it is a subsequence of the stored names |
| `TagSearch.FilterByPrefixUnique` | app.py:146-148 | the two properties above determine the result: any subsequence with those counts equals it |
| `TagSearch.FilterByEmptyPrefix` | app.py:146 | the default empty query returns every stored name, in order |
| `TagSearch.MatchesIgnoresCase` | app.py:146-148 | lower-casing the name or the query does not change whether the name matches |
| `TagSearch.MuFindsMusic` | app.py:143-149 | the query "mu" finds the stored tag "Music" and not "art" |
| `TagLinks.TagNamed` | app.py:166 | the lookup by exact name finds a tag exactly when one is stored under that name, and returns a stored tag with that name |
| `TagLinks.ResolveTags` | app.py:165-168 | there are no more ids than requested names, and every id is a stored tag id |
| `TagLinks.ResolveOneName` | app.py:166-168 | one requested name contributes its tag's id when it names a stored tag, and nothing otherwise |
| `TagLinks.ResolveTagsAppend` | app.py:165-168 | the ids keep request order: a request split in two resolves to the ids of the first part followed by those of the second |
| `TagLinks.ResolveTagsSound` | app.py:311-314 | every attached id is the id of a stored tag whose name was requested |
| `TagLinks.ResolveTagsComplete` | app.py:165-168 | every requested name that names a stored tag gets that tag's id attached |
| `TagLinks.ResolveUnknownNames` | app.py:167 | names that resolve to no tag are skipped without error; if none resolves, nothing is attached |
| `TaskList.KidTasks` | app.py:47 | a kid's tasks are exactly the stored tasks whose `kidId` is that kid |
| `TaskList.KidTasksCounts` | app.py:47 | a kid's tasks hold each stored task of that kid as often as it is stored, and no other task |
| `TaskList.WithoutKidTasks` | app.py:181 | the bulk delete keeps exactly the tasks of the other kids |
| `TaskList.WithoutKidTasksCounts` | app.py:181 | the bulk delete keeps each task of another kid as often as it is stored, and no task of the kid |
| `TaskList.InsertByOrder` | app.py:201 | inserting adds exactly that task to the multiset of tasks, so the list grows by one |
| `TaskList.InsertByOrderSorted` | app.py:201 | inserting into a list sorted by `order` keeps it sorted |
| `TaskList.SortByOrder` | app.py:201 | the result is non-decreasing in `order` and is a permutation of the input, of the same length |
| `TaskList.Views` | app.py:201 | each listed entry is the id/text/done view of the task at the same position |
| `TaskList.ListTasks` | app.py:200-202 | the listing has one entry per task of the kid; `ListTasksSpec` states its contents and order |
| `TaskList.ListTasksSpec` | app.py:200-202 | the listing is the id/text/done view of an arrangement, non-decreasing in `order`, that holds each stored task of the kid as often as it is stored and no other task |
| `TaskList.ListTasksShows` | app.py:198-203 | every task of a kid appears in that kid's listing |
| `TaskList.ListedByOrder` | app.py:200-202 | three tasks created with orders 2, 0, 1 are listed as 0, 1, 2 |
| `TaskList.KidTasksAppend` | app.py:205-207 | a created task joins the end of its own kid's tasks and no other kid's |
| `TaskList.ResetLeavesNoTasks` | app.py:180-181 | after the POST goal reset, the kid has no tasks |
| `TaskList.ResetKeepsOtherKids` | app.py:181 | the POST goal reset leaves every other kid's tasks as they were |
| `PropositionCards.Card` | app.py:245-253 | the card always carries title, image, description, type and price; it carries the content exactly when the kid's points are at least the price, and then the content is the proposition's |
| `PropositionCards.CardRevealsAtEquality` | app.py:252-253 | a balance equal to the price reveals the content |
| `PropositionCards.CardAfterCredit` | app.py:252 | earning points never hides content that was shown, and leaves every other card field unchanged |
| `Handlers.BindPhone` | app.py:136-137 | after a login the kid has a phone number; a number already bound is kept; otherwise the offered one is bound |
| `Handlers.BindPhoneFirstWins` | app.py:136-137 | a second login offering another number changes nothing: the first bound number stays |
| `Handlers.WithoutKidTasksDistinct` | app.py:91 | deleting a kid's tasks keeps task ids distinct |
| `Handlers.FreshLinksDistinct` | app.py:75-86 | attaching tag ids that are new to the row and requested once keeps its links distinct, as the join tables' composite primary keys require |
| `Handlers.Store.Valid` | app.py:36-106 | the schema's primary keys (the join tables' composite keys included), its UNIQUE columns on account, phone number and tag name, and its foreign keys; every `Store` method keeps it |
| `Handlers.Store.constructor` | app.py:24 | an empty store satisfies the schema invariant; ids start at 1 |
| `Handlers.Store.Login` | app.py:130-140 | unknown account: 400, nothing changes; a phone bound elsewhere while none is stored: 500, nothing changes; otherwise the kid's id and `register == (goal is None)`, with the phone bound only if none was stored; keeps `Valid()` |
| `Handlers.Store.CreateTag` | app.py:150-158 | a stored name: 400 and the tags unchanged; otherwise 201 and exactly one new tag with that name and a fresh id; the name is stored afterwards and names stay unique |
| `Handlers.Store.AddInterests` | app.py:161-170 | only the current kid's interests can change; they keep every link they had, gain only ids of requested names, and never hold a link twice; when every resolved tag is new to the kid and requested once, the answer is 200 and its interests gain exactly the resolved ids, in request order |
| `Handlers.Store.SetGoal` | app.py:173-183 | the kid's goal is set with either verb; POST removes exactly that kid's tasks; PUT leaves the tasks unchanged; no other kid changes |
| `Handlers.Store.CreateTask` | app.py:204-208 | exactly one task is appended; it belongs to the current kid, has the given text and order, is not done, and has a fresh id |
| `Handlers.Store.UpdateTaskDone` | app.py:209-217 | an unknown id gives 404 and nothing changes; otherwise 200, and only that task's `done` changes, whoever owns it |
| `Handlers.Store.AddPoints` | app.py:276-283 | only the kid with the account changes, and it becomes `Credit(kid, amount)` |
| `Handlers.Store.AddExpertises` | app.py:308-316 | an unknown mentor id changes nothing and answers 200 when no name resolves, 500 otherwise; for a stored mentor only its expertises can change; they keep every link they had, gain only ids of requested names, and never hold a link twice; when every resolved tag is new to it and requested once, the answer is 200 and its expertises gain exactly the resolved ids, in request order |
| `Handlers.Store.WaitForMentor` | app.py:330-336 | only the current kid changes; its state becomes `Waiting`, whatever it was |
| `Handlers.CreateTagTwice` | app.py:55 | creating a name twice: the second request gets 400; the first succeeds exactly when the name was new; at most one tag is added |
| `Handlers.LoginTwice` | app.py:133-140 | once a login is accepted, a second login with another number gets the same answer and changes nothing; only the kids can change, and the store stays valid |

## Left out

- HTTP routing, JSON request parsing and response serialisation are left
  out. A missing JSON key, a JSON `null` phone number and a non-integer
  amount are not modelled.
- Identity tokens are left out: their issuance, expiry and validation.
  The current kid is given as an existing kid id.
- Image upload and serving (app.py:109-118) are left out. They are
  filesystem I/O with generated file names.
- These handlers are outside the modelled core: creating kids, propositions
  and mentors from arbitrary fields, listing propositions and mentors, the
  profile, setting the avatar, and liking a mentor.
- The database session is not modelled. That covers commit, rollback,
  migrations and configuration. Of the commit failures, only the UNIQUE
  constraints on tag names and phone numbers are modelled.
- The declared string lengths are not modelled: the store does not
  enforce them.
- `.one()` raises when it finds no row, and `.get()` returns nothing, so
  the handler fails at the first attribute it reads from that nothing.
  The model turns these failures into preconditions:
  - the account in `Store.AddPoints` (`.one()`, app.py:278);
  - the current kid in the kid handlers, whose id the identity token
    carries from a login of a stored kid; a request with the id of a kid
    that is not stored is not modelled (for interests it would succeed
    when no name resolves);
  - the kid and the proposition of the card.

  `Store.AddExpertises` does model an unknown mentor id (app.py:310): it
  answers 200 and changes nothing when no name resolves, and 500 otherwise.
- `PropositionCards.Card` takes the kid and proposition records. The two
  lookups by id (app.py:243-244) are not modelled.
- Handlers.Store.AddInterests: the outcome is not stated when a resolved
  tag is already among the kid's interests or a name is requested twice.
  The join table's composite primary key (app.py:75-79) never holds a
  link twice; whether the mapper skips the repeated link or the commit
  fails depends on the mapper's bookkeeping, which is not modelled. The
  contract then promises only that no other kid and no other field
  changes, that every existing link is kept, that only ids of requested
  names are added, and that no link is held twice; the answer code is
  not stated. The method body picks one of the two outcomes (it refuses
  the request with 500 and changes nothing), but the contract does not
  promise it.
- Handlers.Store.AddExpertises: the same holds for a mentor's expertises
  (app.py:82-86).
- Lower-casing is ASCII case folding. Python's full Unicode `str.lower()`
  is approximated.
- The tag search returns names in the order of `Tag.query.all()`
  (app.py:147), a query without ORDER BY, so the database fixes no order.
  The model uses insertion order, and the lemmas about order hold for
  that order only.
- The order among tasks with equal `order` is unspecified. The model sorts
  stably over store order, but no lemma states a tie order.
- Points are unbounded integers. The 64-bit limit of the store's integer
  column is not modelled.
- `Store.CreateTask` takes only text and order. Other fields sent in the
  request body (`done`, `id`, `kid_id`) are not modelled.
- The exact id the database assigns to a new row is not modelled. The
  store uses counters that give a fresh id.
