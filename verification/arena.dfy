/** The three places where the debate interface calls into the store: the
    add-argument form, the drawing of a connection, and the vote buttons.
    Rendering and layout are not modelled. */
module Arena {
  import opened Types
  import opened Text
  import opened Store

  /** What the add-argument form hands to the store for the text typed in:
      the trimmed text, or nothing when the text is blank. */
  function Submission(text: string): (r: Option<string>)
    ensures r.None? <==> forall i :: 0 <= i < |text| ==> IsWhitespace(text[i])
    ensures r.Some? ==> r.value != [] && !IsWhitespace(r.value[0]) && !IsWhitespace(r.value[|r.value| - 1])
  {
    var t := Trim(text);
    if t != "" then Some(t) else None
  }

  /** `handleAddArgument`: stores the trimmed text as a new argument unless
      it is blank, so this path never stores blank content. */
  method HandleAddArgument(store: DebateStore, stamp: string, createdAt: int, kind: ArgumentType, text: string)
    returns (added: Option<string>)
    requires store.Valid()
    modifies store
    ensures store.Valid()
    ensures added.None? <==> Submission(text).None?
    ensures added.None? ==> store.arguments == old(store.arguments) && store.relations == old(store.relations)
    ensures added.Some? ==>
              && added.value == ArgumentId(stamp)
              && store.arguments == old(store.arguments)[added.value := NewArgument(added.value, kind, Submission(text).value, createdAt)]
              && store.relations == old(store.relations)
    ensures forall k :: k in store.arguments && k !in old(store.arguments) ==> store.arguments[k].content != []
  {
    var submitted := Submission(text);
    if submitted.Some? {
      var id := store.AddArgument(stamp, kind, submitted.value, createdAt);
      added := Some(id);
    } else {
      added := None;
    }
  }

  /** `onConnect`: a connection drawn between two handles becomes a relation
      of the currently selected kind, provided both ends are given. */
  method HandleConnect(store: DebateStore, stamp: string, source: Option<string>, target: Option<string>, mode: RelationType)
    requires store.Valid()
    modifies store
    ensures store.Valid()
    ensures store.arguments == old(store.arguments)
    ensures if source.Some? && source.value != "" && target.Some? && target.value != "" then
              store.relations == old(store.relations)[RelationId(stamp) :=
                Relation(RelationId(stamp), source.value, target.value, mode)]
            else
              store.relations == old(store.relations)
  {
    if source.Some? && source.value != "" && target.Some? && target.value != "" {
      store.AddRelation(stamp, source.value, target.value, mode);
    }
  }

  /** `handleVote`: the vote buttons send the displayed count plus the
      increment as an update of the `votes` field. */
  method HandleVote(store: DebateStore, id: string, shownVotes: int, increment: int)
    requires store.Valid()
    modifies store
    ensures store.Valid()
    ensures store.arguments == Updated(old(store.arguments), id, VotePatch(shownVotes, increment))
    ensures store.relations == old(store.relations)
    ensures id in store.arguments ==>
              store.arguments[id] == old(store.arguments)[id].(votes := shownVotes + increment)
  {
    store.UpdateArgument(id, VotePatch(shownVotes, increment));
  }

  /** Voting up and then down on a freshly displayed count leaves the store
      exactly as it was. */
  method VoteUpThenDown(store: DebateStore, id: string)
    requires store.Valid()
    modifies store
    ensures store.Valid()
    ensures store.arguments == old(store.arguments) && store.relations == old(store.relations)
  {
    if id in store.arguments {
      var shown := store.arguments[id].votes;
      HandleVote(store, id, shown, 1);
      HandleVote(store, id, shown + 1, -1);
      VoteRoundTrip(old(store.arguments), id);
    } else {
      HandleVote(store, id, 0, 1);
      HandleVote(store, id, 1, -1);
    }
  }
}
