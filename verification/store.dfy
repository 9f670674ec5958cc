/** The debate graph store: arguments and relations filed by id, with the four
    mutations the user interface calls. Each mutation is one atomic step on
    the two maps. */
module Store {
  import opened Types

  /** A node of the debate graph. */
  datatype Argument = Argument(
    id: string,
    kind: ArgumentType,
    content: string,
    author: string,
    createdAt: int,
    votes: int)

  /** A directed, typed edge from `source` to `target`. */
  datatype Relation = Relation(id: string, source: string, target: string, kind: RelationType)

  /** A partial argument record: each field is either supplied or left out. */
  datatype ArgumentPatch = ArgumentPatch(
    id: Option<string>,
    kind: Option<ArgumentType>,
    content: Option<string>,
    author: Option<string>,
    createdAt: Option<int>,
    votes: Option<int>)

  const NO_CHANGES := ArgumentPatch(None, None, None, None, None, None)

  /** The author every new argument is filed under. */
  const DEFAULT_AUTHOR := "User"

  /** The argument the store starts with. */
  const SEED_ID := "1"
  const SEED_CONTENT := "AI will significantly change software development"

  /** Argument ids are "arg_" followed by a stamp made of the clock and a
      random suffix; relation ids use "rel_". */
  function ArgumentId(stamp: string): string {
    "arg_" + stamp
  }

  function RelationId(stamp: string): string {
    "rel_" + stamp
  }

  /** Distinct stamps give distinct ids, and an argument id is never a
      relation id. */
  lemma IdsFromStamps(s: string, t: string)
    ensures ArgumentId(s) == ArgumentId(t) <==> s == t
    ensures RelationId(s) == RelationId(t) <==> s == t
    ensures ArgumentId(s) != RelationId(t)
  {
    assert ArgumentId(s)[4..] == s && ArgumentId(t)[4..] == t;
    assert RelationId(s)[4..] == s && RelationId(t)[4..] == t;
    assert ArgumentId(s)[0] != RelationId(t)[0];
  }

  /** The record `addArgument` files under `id`. */
  function NewArgument(id: string, kind: ArgumentType, content: string, createdAt: int): Argument {
    Argument(id, kind, content, DEFAULT_AUTHOR, createdAt, 0)
  }

  /** `Object.assign(record, updates)`: every supplied field overwrites,
      every other field stays. */
  function Merge(a: Argument, p: ArgumentPatch): Argument {
    Argument(
      p.id.GetOr(a.id),
      p.kind.GetOr(a.kind),
      p.content.GetOr(a.content),
      p.author.GetOr(a.author),
      p.createdAt.GetOr(a.createdAt),
      p.votes.GetOr(a.votes))
  }

  /** Merging nothing changes nothing, merging the same patch twice is
      merging it once, and a later patch wins over an earlier one on every
      field it supplies while every field it leaves out keeps the earlier
      value. */
  lemma MergeFacts(a: Argument, p: ArgumentPatch, q: ArgumentPatch)
    ensures Merge(a, NO_CHANGES) == a
    ensures Merge(Merge(a, p), p) == Merge(a, p)
    ensures var b, c := Merge(a, p), Merge(Merge(a, p), q);
            && (if q.id.Some? then c.id == q.id.value else c.id == b.id)
            && (if q.kind.Some? then c.kind == q.kind.value else c.kind == b.kind)
            && (if q.content.Some? then c.content == q.content.value else c.content == b.content)
            && (if q.author.Some? then c.author == q.author.value else c.author == b.author)
            && (if q.createdAt.Some? then c.createdAt == q.createdAt.value else c.createdAt == b.createdAt)
            && (if q.votes.Some? then c.votes == q.votes.value else c.votes == b.votes)
  {
  }

  /** The update a vote button sends: the displayed count plus the increment. */
  function VotePatch(shownVotes: int, increment: int): ArgumentPatch {
    NO_CHANGES.(votes := Some(shownVotes + increment))
  }

  /** The relation has `id` as one of its endpoints. */
  predicate Touches(r: Relation, id: string) {
    r.source == id || r.target == id
  }

  /** The arguments after `updateArgument(id, updates)`. */
  function Updated(args: map<string, Argument>, id: string, updates: ArgumentPatch): (r: map<string, Argument>)
    ensures r.Keys == args.Keys
    ensures forall k :: k in args && k != id ==> r[k] == args[k]
    ensures id !in args ==> r == args
  {
    if id in args then args[id := Merge(args[id], updates)] else args
  }

  /** The relations after the cascade of `deleteArgument(id)`. */
  function Detached(rels: map<string, Relation>, id: string): map<string, Relation> {
    map k | k in rels && !Touches(rels[k], id) :: rels[k]
  }

  /** Referential integrity: every endpoint of every relation is an argument. */
  predicate Linked(args: map<string, Argument>, rels: map<string, Relation>) {
    forall k :: k in rels ==> rels[k].source in args && rels[k].target in args
  }

  /** Deleting an argument removes it and exactly the relations that touch
      it; every other argument and relation is kept as it was. */
  lemma DeleteCascades(args: map<string, Argument>, rels: map<string, Relation>, id: string)
    ensures id !in args - {id}
    ensures forall k :: k in args && k != id ==> k in args - {id} && (args - {id})[k] == args[k]
    ensures forall k :: k in Detached(rels, id) ==> !Touches(Detached(rels, id)[k], id)
    ensures forall k :: k in rels ==> (k in Detached(rels, id) <==> !Touches(rels[k], id))
    ensures forall k :: k in Detached(rels, id) ==> k in rels && Detached(rels, id)[k] == rels[k]
  {
  }

  /** The cascade keeps referential integrity. */
  lemma DeleteKeepsLinked(args: map<string, Argument>, rels: map<string, Relation>, id: string)
    requires Linked(args, rels)
    ensures Linked(args - {id}, Detached(rels, id))
  {
  }

  /** Deleting the same argument twice is deleting it once. */
  lemma DeleteIdempotent(args: map<string, Argument>, rels: map<string, Relation>, id: string)
    ensures (args - {id}) - {id} == args - {id}
    ensures Detached(Detached(rels, id), id) == Detached(rels, id)
  {
  }

  /** Adding an argument keeps referential integrity. */
  lemma InsertArgumentKeepsLinked(args: map<string, Argument>, rels: map<string, Relation>, id: string, a: Argument)
    requires Linked(args, rels)
    ensures Linked(args[id := a], rels)
  {
  }

  /** Adding a relation to an intact store keeps it intact exactly when both
      endpoints are arguments; nothing checks this on the way in. */
  lemma InsertRelationLinkedIff(args: map<string, Argument>, rels: map<string, Relation>, k: string, r: Relation)
    requires Linked(args, rels)
    ensures Linked(args, rels[k := r]) <==> r.source in args && r.target in args
  {
    if Linked(args, rels[k := r]) {
      assert rels[k := r][k] == r;
    }
  }

  /** Updating an argument keeps referential integrity, whatever the patch:
      the keys of the argument map do not change. */
  lemma UpdateKeepsLinked(args: map<string, Argument>, rels: map<string, Relation>, id: string, updates: ArgumentPatch)
    requires Linked(args, rels)
    ensures Linked(Updated(args, id, updates), rels)
  {
  }

  /** Voting up and then down restores the argument map exactly. */
  lemma VoteRoundTrip(args: map<string, Argument>, id: string)
    requires id in args
    ensures var v := args[id].votes;
            Updated(Updated(args, id, VotePatch(v, 1)), id, VotePatch(v + 1, -1)) == args
  {
  }

  /** The store of `useDebateStore`. */
  class DebateStore {
    var arguments: map<string, Argument>
    var relations: map<string, Relation>

    /** Every relation is filed under its own id (arguments need not be: an
        update may overwrite a record's `id` field while its key stays). */
    ghost predicate Valid()
      reads this
    {
      forall k :: k in relations ==> relations[k].id == k
    }

    /** The initial state: one seed claim and no relations. */
    constructor (createdAt: int)
      ensures Valid()
      ensures arguments == map[SEED_ID := Argument(SEED_ID, Claim, SEED_CONTENT, DEFAULT_AUTHOR, createdAt, 0)]
      ensures relations == map[]
      ensures Linked(arguments, relations)
    {
      arguments := map[SEED_ID := Argument(SEED_ID, Claim, SEED_CONTENT, DEFAULT_AUTHOR, createdAt, 0)];
      relations := map[];
    }

    /** `addArgument`: files a new argument under "arg_" + `stamp` and
        returns that id. A stamp already in use overwrites that entry. */
    method AddArgument(stamp: string, kind: ArgumentType, content: string, createdAt: int) returns (id: string)
      requires Valid()
      modifies this
      ensures Valid()
      ensures id == ArgumentId(stamp)
      ensures arguments == old(arguments)[id := NewArgument(id, kind, content, createdAt)]
      ensures relations == old(relations)
      ensures id !in old(arguments) ==> |arguments| == |old(arguments)| + 1
      ensures Linked(old(arguments), old(relations)) ==> Linked(arguments, relations)
    {
      id := ArgumentId(stamp);
      if Linked(arguments, relations) {
        InsertArgumentKeepsLinked(arguments, relations, id, NewArgument(id, kind, content, createdAt));
      }
      arguments := arguments[id := NewArgument(id, kind, content, createdAt)];
    }

    /** `addRelation`: files a new relation under "rel_" + `stamp`. The
        endpoints are not checked and a self-loop is accepted. */
    method AddRelation(stamp: string, source: string, target: string, kind: RelationType)
      requires Valid()
      modifies this
      ensures Valid()
      ensures relations == old(relations)[RelationId(stamp) := Relation(RelationId(stamp), source, target, kind)]
      ensures arguments == old(arguments)
      ensures Linked(old(arguments), old(relations)) ==>
                (Linked(arguments, relations) <==> source in arguments && target in arguments)
    {
      var id := RelationId(stamp);
      if Linked(arguments, relations) {
        InsertRelationLinkedIff(arguments, relations, id, Relation(id, source, target, kind));
      }
      relations := relations[id := Relation(id, source, target, kind)];
    }

    /** `updateArgument`: merges `updates` into the argument filed under
        `id`; an absent id leaves the store as it was. */
    method UpdateArgument(id: string, updates: ArgumentPatch)
      requires Valid()
      modifies this
      ensures Valid()
      ensures arguments == Updated(old(arguments), id, updates)
      ensures relations == old(relations)
      ensures Linked(old(arguments), old(relations)) ==> Linked(arguments, relations)
    {
      if Linked(arguments, relations) {
        UpdateKeepsLinked(arguments, relations, id, updates);
      }
      if id in arguments {
        arguments := arguments[id := Merge(arguments[id], updates)];
      }
    }

    /** `deleteArgument`: removes the argument and, walking the relation
        keys, every relation that has it as an endpoint. */
    method DeleteArgument(id: string)
      requires Valid()
      modifies this
      ensures Valid()
      ensures arguments == old(arguments) - {id}
      ensures relations == Detached(old(relations), id)
      ensures Linked(old(arguments), old(relations)) ==> Linked(arguments, relations)
    {
      if Linked(arguments, relations) {
        DeleteKeepsLinked(arguments, relations, id);
      }
      arguments := arguments - {id};
      ghost var before := relations;
      var pending := relations.Keys;
      while pending != {}
        invariant arguments == old(arguments) - {id}
        invariant pending <= before.Keys
        invariant relations == map k | k in before && (k in pending || !Touches(before[k], id)) :: before[k]
        decreases pending
      {
        var relId :| relId in pending;
        var rel := relations[relId];
        if rel.source == id || rel.target == id {
          relations := relations - {relId};
        }
        pending := pending - {relId};
      }
    }
  }

  /** The graph view draws one edge per relation under the relation's own
      `id`; in a valid store two edges share an id only when they are the
      same relation. */
  lemma EdgeIdsDistinct(store: DebateStore, k1: string, k2: string)
    requires store.Valid()
    requires k1 in store.relations && k2 in store.relations
    ensures store.relations[k1].id == store.relations[k2].id <==> k1 == k2
  {
  }
}
