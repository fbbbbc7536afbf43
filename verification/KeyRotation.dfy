/**
 Participants of a chat and the loop that hands every listed member a new group key.
 */
module KeyRotation {
  import opened Prelude

  datatype Role = Member | Moderator | Admin | Owner

  /** The derived order of the role enum. */
  function Level(r: Role): nat {
    match r
    case Member => 1
    case Moderator => 2
    case Admin => 3
    case Owner => 4
  }

  /** A row of chat_participants. */
  datatype Participant = Participant(role: Role, key: Option<string>, addedBy: Option<Uuid>, left: bool)

  type Participants = map<Uuid, Participant>

  predicate IsActiveIn(ps: Participants, u: Uuid) {
    u in ps && !ps[u].left
  }

  function Active(ps: Participants): set<Uuid> {
    set u | u in ps && !ps[u].left
  }

  /** One UPDATE of the loop; it matches a row only for an active member. */
  function GiveKey(ps: Participants, entry: (Uuid, string)): Participants {
    if IsActiveIn(ps, entry.0) then ps[entry.0 := ps[entry.0].(key := Some(entry.1))] else ps
  }

  function Rotated(ps: Participants, keys: seq<(Uuid, string)>): Participants {
    if keys == [] then ps else GiveKey(Rotated(ps, keys[..|keys| - 1]), keys[|keys| - 1])
  }

  /** The last key a list gives a member. */
  function LastListed(keys: seq<(Uuid, string)>, u: Uuid): Option<string> {
    if keys == [] then None
    else if keys[|keys| - 1].0 == u then Some(keys[|keys| - 1].1)
    else LastListed(keys[..|keys| - 1], u)
  }

  /** Positions of the list that name an active member. */
  function Hits(ps: Participants, keys: seq<(Uuid, string)>): set<nat> {
    set i: nat | i < |keys| && IsActiveIn(ps, keys[i].0)
  }

  /** What the loop leaves: each active listed member holds the last key listed for them, nobody else changes. */
  lemma {:induction false} RotationMeaning(ps: Participants, keys: seq<(Uuid, string)>)
    ensures var q := Rotated(ps, keys);
            && q.Keys == ps.Keys
            && Active(q) == Active(ps)
            && forall u :: u in ps ==>
                 q[u] == if !ps[u].left && LastListed(keys, u).Some? then ps[u].(key := LastListed(keys, u)) else ps[u]
  {
    if keys != [] {
      RotationMeaning(ps, keys[..|keys| - 1]);
    }
  }

  lemma {:induction false} HitsStep(ps: Participants, keys: seq<(Uuid, string)>, n: nat)
    requires n < |keys|
    ensures |Hits(ps, keys[..n + 1])| == |Hits(ps, keys[..n])| + if IsActiveIn(ps, keys[n].0) then 1 else 0
  {
    if IsActiveIn(ps, keys[n].0) {
      assert Hits(ps, keys[..n + 1]) == Hits(ps, keys[..n]) + {n};
    } else {
      assert Hits(ps, keys[..n + 1]) == Hits(ps, keys[..n]);
    }
  }

  lemma {:induction false} LastListedIff(keys: seq<(Uuid, string)>, u: Uuid)
    ensures LastListed(keys, u).Some? <==> exists i :: 0 <= i < |keys| && keys[i].0 == u
    ensures LastListed(keys, u).Some? ==> (u, LastListed(keys, u).value) in keys
  {
    if keys != [] {
      var n := |keys| - 1;
      LastListedIff(keys[..n], u);
      if keys[n].0 != u && LastListed(keys, u).Some? {
        var i :| 0 <= i < n && keys[..n][i].0 == u;
        assert keys[i].0 == u;
      }
      if i :| 0 <= i < |keys| && keys[i].0 == u {
        assert i == n || keys[..n][i].0 == u;
      }
      assert keys[n] in keys && forall e :: e in keys[..n] ==> e in keys;
    }
  }

  ghost predicate NoRepeats(keys: seq<(Uuid, string)>) {
    forall i, j :: 0 <= i < j < |keys| ==> keys[i].0 != keys[j].0
  }

  lemma {:induction false} HitMembers(ps: Participants, keys: seq<(Uuid, string)>, hits: set<nat>)
    requires NoRepeats(keys) && hits <= Hits(ps, keys)
    ensures |set i | i in hits :: keys[i].0| == |hits|
  {
    var members := set i | i in hits :: keys[i].0;
    if hits == {} {
      assert members == {};
    } else {
      var i := Element(hits);
      HitMembers(ps, keys, hits - {i});
      var rest := set j | j in hits - {i} :: keys[j].0;
      assert keys[i].0 !in rest;
      assert members == rest + {keys[i].0};
    }
  }

  /**
   For a list without repeats, the reported count equals the number of active members
   exactly when every active member is listed, and then each holds a key of the list.
   */
  lemma {:induction false} FullCountCoversEveryone(ps: Participants, keys: seq<(Uuid, string)>)
    requires NoRepeats(keys)
    ensures Rotated(ps, keys).Keys == ps.Keys
    ensures |Hits(ps, keys)| == |Active(ps)| <==> forall u :: u in Active(ps) ==> LastListed(keys, u).Some?
    ensures |Hits(ps, keys)| == |Active(ps)| ==>
              forall u :: u in Active(ps) ==>
                var k := Rotated(ps, keys)[u].key; k.Some? && (u, k.value) in keys
  {
    var members := set i | i in Hits(ps, keys) :: keys[i].0;
    HitMembers(ps, keys, Hits(ps, keys));
    assert members <= Active(ps);
    SubsetSize(members, Active(ps));
    RotationMeaning(ps, keys);
    forall u | u in Active(ps)
      ensures LastListed(keys, u).Some? <==> u in members
      ensures LastListed(keys, u).Some? ==> (u, LastListed(keys, u).value) in keys
    {
      LastListedIff(keys, u);
      if i :| 0 <= i < |keys| && keys[i].0 == u {
        assert i in Hits(ps, keys);
      }
    }
    if forall u :: u in Active(ps) ==> LastListed(keys, u).Some? {
      assert forall u :: u in Active(ps) ==> u in members;
      assert members == Active(ps);
    }
  }

  /** The transaction of `rotate_group_key`, after its authorization check. */
  method RotateKeys(ps: Participants, keys: seq<(Uuid, string)>) returns (result: Participants, updated: nat)
    ensures result == Rotated(ps, keys)
    ensures updated == |Hits(ps, keys)|
  {
    result, updated := ps, 0;
    var i := 0;
    assert Hits(ps, keys[..0]) == {};
    while i < |keys|
      invariant 0 <= i <= |keys|
      invariant result == Rotated(ps, keys[..i])
      invariant updated == |Hits(ps, keys[..i])|
    {
      RotationMeaning(ps, keys[..i]);
      HitsStep(ps, keys, i);
      var (member, newKey) := keys[i];
      if IsActiveIn(result, member) {
        result := result[member := result[member].(key := Some(newKey))];
        updated := updated + 1;
      }
      assert keys[..i + 1][..i] == keys[..i];
      i := i + 1;
    }
    assert keys[..|keys|] == keys;
  }
}
