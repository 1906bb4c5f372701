/** Resolving requested tag names to stored tags, as the interest and
    expertise handlers do before attaching them. */
module TagLinks {
  import opened Records

  /** The tag stored under exactly `name` (the column is case-sensitive), if any. */
  function TagNamed(tags: seq<Tag>, name: string): (r: Option<Tag>)
    ensures r.Some? <==> name in TagNames(tags)
    ensures r.Some? ==> r.value in tags && r.value.name == name
  {
    match IndexOf(TagNames(tags), name)
    case None => None
    case Some(i) => Some(tags[i])
  }

  /** The ids of the requested names that resolve to a stored tag, in request
      order; names that resolve to nothing are skipped. */
  function ResolveTags(tags: seq<Tag>, names: seq<string>): (r: seq<nat>)
    ensures |r| <= |names|
    ensures forall id :: id in r ==> id in TagIds(tags)
  {
    if |names| == 0 then []
    else
      var init := ResolveTags(tags, names[..|names| - 1]);
      match TagNamed(tags, names[|names| - 1])
      case None => init
      case Some(t) =>
        assert t.id in TagIds(tags) by {
          var i :| 0 <= i < |tags| && tags[i] == t;
          assert TagIds(tags)[i] == t.id;
        }
        init + [t.id]
  }

  /** Every attached id is the id of a stored tag that was asked for by name. */
  lemma {:induction false} ResolveTagsSound(tags: seq<Tag>, names: seq<string>, id: nat)
    requires id in ResolveTags(tags, names)
    ensures exists t :: t in tags && t.id == id && t.name in names
  {
    var init := names[..|names| - 1];
    var last := names[|names| - 1];
    if id in ResolveTags(tags, init) {
      ResolveTagsSound(tags, init, id);
      var t :| t in tags && t.id == id && t.name in init;
      assert t.name in names;
    } else {
      assert TagNamed(tags, last).Some? && TagNamed(tags, last).value.id == id;
      assert last in names;
    }
  }

  /** Every requested name that names a stored tag gets that tag attached. */
  lemma {:induction false} ResolveTagsComplete(tags: seq<Tag>, names: seq<string>, j: nat)
    requires j < |names| && names[j] in TagNames(tags)
    ensures TagNamed(tags, names[j]).value.id in ResolveTags(tags, names)
  {
    if j < |names| - 1 {
      var init := names[..|names| - 1];
      ResolveTagsComplete(tags, init, j);
    }
  }

  /** One requested name contributes its tag's id if it names a stored tag,
      and nothing otherwise. */
  lemma ResolveOneName(tags: seq<Tag>, name: string)
    ensures ResolveTags(tags, [name]) ==
      if name in TagNames(tags) then [TagNamed(tags, name).value.id] else []
  {
    assert [name][..0] == [];
  }

  /** The ids follow request order: the ids of a request split in two are
      the ids of the first part followed by those of the second. */
  lemma {:induction false} ResolveTagsAppend(tags: seq<Tag>, a: seq<string>, b: seq<string>)
    ensures ResolveTags(tags, a + b) == ResolveTags(tags, a) + ResolveTags(tags, b)
    decreases |b|
  {
    if |b| > 0 {
      var b0 := b[..|b| - 1];
      assert (a + b)[..|a + b| - 1] == a + b0;
      assert (a + b)[|a + b| - 1] == b[|b| - 1];
      ResolveTagsAppend(tags, a, b0);
    } else {
      assert a + b == a;
    }
  }

  /** Names that resolve to nothing change nothing. */
  lemma {:induction false} ResolveUnknownNames(tags: seq<Tag>, names: seq<string>)
    requires forall j :: 0 <= j < |names| ==> names[j] !in TagNames(tags)
    ensures ResolveTags(tags, names) == []
  {
    if |names| > 0 {
      ResolveUnknownNames(tags, names[..|names| - 1]);
    }
  }
}
