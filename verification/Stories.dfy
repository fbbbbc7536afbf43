/**
 The story list of a viewer, grouped by author in one pass over the query's rows.
 */
module Stories {
  import opened Prelude

  datatype Story = Story(id: Uuid, user: Uuid, createdAt: Time, viewed: bool)

  datatype UserStories = UserStories(user: Uuid, stories: seq<Story>)

  /** The stories of one author, in the order of the list. */
  function Of(stories: seq<Story>, user: Uuid): seq<Story> {
    if stories == [] then []
    else
      var n := |stories| - 1;
      Of(stories[..n], user) + if stories[n].user == user then [stories[n]] else []
  }

  /** The authors, in the order of their first stories. */
  function Authors(stories: seq<Story>): seq<Uuid> {
    if stories == [] then []
    else
      var n := |stories| - 1;
      var before := Authors(stories[..n]);
      if stories[n].user in before then before else before + [stories[n].user]
  }

  /** One group for each author, with all their stories. */
  function Grouped(stories: seq<Story>): seq<UserStories> {
    var authors := Authors(stories);
    seq(|authors|, i requires 0 <= i < |authors| => UserStories(authors[i], Of(stories, authors[i])))
  }

  function Flatten(groups: seq<UserStories>): seq<Story> {
    if groups == [] then [] else Flatten(groups[..|groups| - 1]) + groups[|groups| - 1].stories
  }

  /** The query's ORDER BY: unseen first, then newest first. */
  ghost predicate Before(s: Story, t: Story) {
    if s.viewed == t.viewed then s.createdAt >= t.createdAt else t.viewed
  }

  ghost predicate Ordered(stories: seq<Story>) {
    forall i, j :: 0 <= i < j < |stories| ==> Before(stories[i], stories[j])
  }

  ghost predicate HasUnseen(g: UserStories) {
    exists s :: s in g.stories && !s.viewed
  }

  lemma {:induction false} AuthorsDistinct(stories: seq<Story>)
    ensures forall i, j :: 0 <= i < j < |Authors(stories)| ==> Authors(stories)[i] != Authors(stories)[j]
  {
    if stories != [] {
      AuthorsDistinct(stories[..|stories| - 1]);
    }
  }

  lemma {:induction false} AuthorsIff(stories: seq<Story>, user: Uuid)
    ensures user in Authors(stories) <==> Of(stories, user) != []
  {
    if stories != [] {
      AuthorsIff(stories[..|stories| - 1], user);
    }
  }

  lemma {:induction false} OfIff(stories: seq<Story>, user: Uuid, s: Story)
    ensures s in Of(stories, user) <==> s in stories && s.user == user
  {
    if stories != [] {
      var n := |stories| - 1;
      OfIff(stories[..n], user, s);
      assert stories == stories[..n] + [stories[n]];
    }
  }

  /** A group keeps the order of the list. */
  lemma {:induction false} GroupsStayOrdered(stories: seq<Story>, user: Uuid)
    requires Ordered(stories)
    ensures Ordered(Of(stories, user))
  {
    if stories != [] {
      var n := |stories| - 1;
      GroupsStayOrdered(stories[..n], user);
      var before := Of(stories[..n], user);
      forall i | 0 <= i < |before| ensures Before(before[i], stories[n]) {
        OfIff(stories[..n], user, before[i]);
        var k :| 0 <= k < n && stories[k] == before[i];
      }
    }
  }

  // ---- Nothing is lost or doubled ------------------------------------------------------------------

  function Sum(parts: seq<multiset<Story>>): multiset<Story> {
    if parts == [] then multiset{} else Sum(parts[..|parts| - 1]) + parts[|parts| - 1]
  }

  /** The stories of each listed author. */
  function Parts(stories: seq<Story>, authors: seq<Uuid>): seq<multiset<Story>> {
    seq(|authors|, i requires 0 <= i < |authors| => multiset(Of(stories, authors[i])))
  }

  lemma {:induction false} SumSnoc(parts: seq<multiset<Story>>, last: multiset<Story>)
    ensures Sum(parts + [last]) == Sum(parts) + last
  {
    assert (parts + [last])[..|parts|] == parts;
  }

  lemma {:induction false} SumGrows(parts: seq<multiset<Story>>, more: seq<multiset<Story>>, at: nat, s: Story)
    requires |more| == |parts| && at < |parts| && more[at] == parts[at] + multiset{s}
    requires forall i :: 0 <= i < |parts| && i != at ==> more[i] == parts[i]
    ensures Sum(more) == Sum(parts) + multiset{s}
  {
    var n := |parts| - 1;
    if at == n {
      assert more[..n] == parts[..n];
    } else {
      SumGrows(parts[..n], more[..n], at, s);
    }
  }

  lemma {:induction false} FlattenIsSum(groups: seq<UserStories>, parts: seq<multiset<Story>>)
    requires |parts| == |groups| && forall i :: 0 <= i < |groups| ==> parts[i] == multiset(groups[i].stories)
    ensures multiset(Flatten(groups)) == Sum(parts)
  {
    if groups != [] {
      FlattenIsSum(groups[..|groups| - 1], parts[..|groups| - 1]);
    }
  }

  lemma {:induction false} OfSnoc(part: seq<Story>, s: Story, user: Uuid)
    ensures Of(part + [s], user) == Of(part, user) + if s.user == user then [s] else []
  {
    assert (part + [s])[..|part|] == part;
  }

  lemma {:induction false} AuthorsSnoc(part: seq<Story>, s: Story)
    ensures Authors(part + [s]) == Authors(part) + if s.user in Authors(part) then [] else [s.user]
  {
    assert (part + [s])[..|part|] == part;
  }

  lemma {:induction false} PartOfNewStory(part: seq<Story>, s: Story, user: Uuid)
    ensures multiset(Of(part + [s], user)) == multiset(Of(part, user)) + if s.user == user then multiset{s} else multiset{}
  {
    OfSnoc(part, s, user);
  }

  /** A story of a listed author joins that author's part. */
  lemma {:induction false} KnownAuthorSum(part: seq<Story>, s: Story, authors: seq<Uuid>)
    requires s.user in authors && forall i, j :: 0 <= i < j < |authors| ==> authors[i] != authors[j]
    ensures Sum(Parts(part + [s], authors)) == Sum(Parts(part, authors)) + multiset{s}
  {
    var at :| 0 <= at < |authors| && authors[at] == s.user;
    var parts, more := Parts(part, authors), Parts(part + [s], authors);
    forall i | 0 <= i < |authors| ensures more[i] == parts[i] + if i == at then multiset{s} else multiset{} {
      PartOfNewStory(part, s, authors[i]);
    }
    SumGrows(parts, more, at, s);
  }

  lemma {:induction false} FirstStory(part: seq<Story>, s: Story)
    requires s.user !in Authors(part)
    ensures multiset(Of(part + [s], s.user)) == multiset{s}
  {
    AuthorsIff(part, s.user);
    OfSnoc(part, s, s.user);
    assert Of(part + [s], s.user) == [s];
  }

  lemma PartsSnoc(stories: seq<Story>, authors: seq<Uuid>, user: Uuid)
    ensures Parts(stories, authors + [user]) == Parts(stories, authors) + [multiset(Of(stories, user))]
  {
  }

  lemma {:induction false} OtherPartsSame(part: seq<Story>, s: Story, authors: seq<Uuid>)
    requires s.user !in authors
    ensures Parts(part + [s], authors) == Parts(part, authors)
  {
    forall i | 0 <= i < |authors| ensures Parts(part + [s], authors)[i] == Parts(part, authors)[i] {
      assert authors[i] in authors;
      PartOfNewStory(part, s, authors[i]);
    }
  }

  /** A story of a new author is a part of its own. */
  lemma {:induction false} NewAuthorSum(part: seq<Story>, s: Story)
    requires s.user !in Authors(part)
    ensures Sum(Parts(part + [s], Authors(part) + [s.user])) == Sum(Parts(part, Authors(part))) + multiset{s}
  {
    FirstStory(part, s);
    PartsSnoc(part + [s], Authors(part), s.user);
    OtherPartsSame(part, s, Authors(part));
    SumSnoc(Parts(part, Authors(part)), multiset{s});
  }

  lemma {:induction false} PartsAreAll(stories: seq<Story>)
    ensures Sum(Parts(stories, Authors(stories))) == multiset(stories)
  {
    if stories != [] {
      var n := |stories| - 1;
      var before, s := stories[..n], stories[n];
      assert stories == before + [s];
      PartsAreAll(before);
      AuthorsSnoc(before, s);
      if s.user in Authors(before) {
        AuthorsDistinct(before);
        KnownAuthorSum(before, s, Authors(before));
      } else {
        NewAuthorSum(before, s);
      }
    }
  }

  /** The groups hold exactly the stories of the list. */
  lemma {:induction false} GroupingIsPermutation(stories: seq<Story>)
    ensures multiset(Flatten(Grouped(stories))) == multiset(stories)
  {
    FlattenIsSum(Grouped(stories), Parts(stories, Authors(stories)));
    PartsAreAll(stories);
  }

  // ---- Unseen first --------------------------------------------------------------------------------

  /** The authors of a part of the list come first among all authors. */
  lemma {:induction false} UnseenPrefix(stories: seq<Story>, k: nat)
    requires k <= |stories|
    ensures |Authors(stories[..k])| <= |Authors(stories)|
    ensures Authors(stories)[..|Authors(stories[..k])|] == Authors(stories[..k])
    decreases |stories|
  {
    if k == |stories| {
      assert stories[..k] == stories;
    } else {
      var n := |stories| - 1;
      UnseenPrefix(stories[..n], k);
      assert stories[..n][..k] == stories[..k];
    }
  }

  /** How many leading rows are unseen. */
  function UnseenCount(stories: seq<Story>): (k: nat)
    ensures k <= |stories|
    ensures forall i :: 0 <= i < k ==> !stories[i].viewed
    ensures k < |stories| ==> stories[k].viewed
  {
    if stories == [] || stories[0].viewed then 0 else 1 + UnseenCount(stories[1..])
  }

  /** A group has an unseen story exactly when its author is among those of the leading unseen rows. */
  lemma {:induction false} UnseenIff(stories: seq<Story>, i: nat)
    requires Ordered(stories) && i < |Grouped(stories)|
    ensures HasUnseen(Grouped(stories)[i]) <==> i < |Authors(stories[..UnseenCount(stories)])|
  {
    var k := UnseenCount(stories);
    var first, user := Authors(stories[..k]), Authors(stories)[i];
    UnseenPrefix(stories, k);
    AuthorsIff(stories[..k], user);
    if i < |first| {
      assert first[i] == user && user in first;
      var s := Of(stories[..k], user)[0];
      OfIff(stories[..k], user, s);
      assert s in stories && !s.viewed;
      OfIff(stories, user, s);
    }
    if HasUnseen(Grouped(stories)[i]) {
      var s :| s in Of(stories, user) && !s.viewed;
      OfIff(stories, user, s);
      var j :| 0 <= j < |stories| && stories[j] == s;
      if k <= j {
        SeenFollows(stories, j);
      }
      assert stories[..k][j] == s;
      OfIff(stories[..k], user, s);
      AuthorsDistinct(stories);
      var f :| 0 <= f < |first| && first[f] == user;
      assert Authors(stories)[f] == user;
    }
  }

  lemma {:induction false} SeenFollows(stories: seq<Story>, j: nat)
    requires Ordered(stories) && UnseenCount(stories) <= j < |stories|
    ensures stories[j].viewed
  {
    var k := UnseenCount(stories);
    if k < j {
      assert Before(stories[k], stories[j]);
    }
  }

  /** For rows in the query's order, groups with an unseen story come before the others. */
  lemma {:induction false} UnseenGroupsFirst(stories: seq<Story>, i: nat, j: nat)
    requires Ordered(stories) && i < j < |Grouped(stories)|
    requires HasUnseen(Grouped(stories)[j])
    ensures HasUnseen(Grouped(stories)[i])
  {
    UnseenIff(stories, i);
    UnseenIff(stories, j);
  }

  // ---- The handler ---------------------------------------------------------------------------------

  /** `position`: the first group of an author. */
  function Position(groups: seq<UserStories>, user: Uuid): (p: Option<nat>)
    ensures p.Some? ==> p.value < |groups| && groups[p.value].user == user
    ensures p.None? <==> forall g :: g in groups ==> g.user != user
  {
    if groups == [] then None
    else if groups[0].user == user then Some(0)
    else
      var rest := Position(groups[1..], user);
      if rest.None? then None else Some(rest.value + 1)
  }

  /** One story joins its author's group, or opens one. */
  function WithStory(groups: seq<UserStories>, s: Story): seq<UserStories> {
    match Position(groups, s.user)
    case Some(i) => groups[i := UserStories(s.user, groups[i].stories + [s])]
    case None => groups + [UserStories(s.user, [s])]
  }

  lemma {:induction false} KnownIffAuthor(part: seq<Story>, user: Uuid)
    ensures Position(Grouped(part), user).Some? <==> user in Authors(part)
  {
    forall i | 0 <= i < |Authors(part)| ensures Grouped(part)[i] in Grouped(part) && Grouped(part)[i].user == Authors(part)[i] {
    }
  }

  lemma {:induction false} GroupOneMore(part: seq<Story>, s: Story)
    ensures Grouped(part + [s]) == WithStory(Grouped(part), s)
  {
    AuthorsSnoc(part, s);
    KnownIffAuthor(part, s.user);
    if s.user in Authors(part) {
      GroupKnown(part, s);
    } else {
      GroupNew(part, s);
    }
  }

  lemma {:induction false} GroupNew(part: seq<Story>, s: Story)
    requires s.user !in Authors(part) && Authors(part + [s]) == Authors(part) + [s.user]
    ensures Grouped(part + [s]) == Grouped(part) + [UserStories(s.user, [s])]
  {
    var before, after := Grouped(part), Grouped(part + [s]);
    AuthorsIff(part, s.user);
    OfSnoc(part, s, s.user);
    forall i | 0 <= i < |before| ensures after[i] == before[i] {
      assert Authors(part)[i] in Authors(part);
      OfSnoc(part, s, Authors(part)[i]);
    }
    assert after[|before|] == UserStories(s.user, [s]);
    assert after == before + [UserStories(s.user, [s])];
  }

  lemma {:induction false} GroupKnown(part: seq<Story>, s: Story)
    requires s.user in Authors(part) && Position(Grouped(part), s.user).Some? && Authors(part + [s]) == Authors(part)
    ensures Grouped(part + [s]) == WithStory(Grouped(part), s)
  {
    var before, after := Grouped(part), Grouped(part + [s]);
    var p := Position(before, s.user).value;
    AuthorsDistinct(part);
    forall i | 0 <= i < |before| ensures after[i] == WithStory(before, s)[i] {
      OfSnoc(part, s, Authors(part)[i]);
      assert i != p ==> Authors(part)[i] != Authors(part)[p];
    }
  }

  /** The body of the loop: push into the author's group, which is pushed first if it is missing. */
  method PushStory(groups: seq<UserStories>, s: Story) returns (grouped: seq<UserStories>)
    ensures grouped == WithStory(groups, s)
  {
    grouped := groups;
    var pos := Position(grouped, s.user);
    var idx := |grouped|;
    if pos.Some? {
      idx := pos.value;
    } else {
      grouped := grouped + [UserStories(s.user, [])];
    }
    var group := grouped[idx];
    assert group.user == s.user;
    grouped := grouped[idx := group.(stories := group.stories + [s])];
    if pos.None? {
      assert group.stories + [s] == [s];
      assert grouped == groups + [UserStories(s.user, [s])];
    }
  }

  method ListStories(stories: seq<Story>) returns (grouped: seq<UserStories>)
    ensures grouped == Grouped(stories)
  {
    grouped := [];
    var i := 0;
    while i < |stories|
      invariant 0 <= i <= |stories|
      invariant grouped == Grouped(stories[..i])
    {
      GroupOneMore(stories[..i], stories[i]);
      assert stories[..i + 1] == stories[..i] + [stories[i]];
      grouped := PushStory(grouped, stories[i]);
      i := i + 1;
    }
    assert stories[..|stories|] == stories;
  }
}
