/**
 The claim extraction transaction (apps/core/neuromem_core/worker.py:311-499) over the claim, source
 and edge tables and their unique constraints (apps/core/neuromem_core/models.py:325-333, 390-401,
 476-478).

 What the model returned, new identifiers, case folding and normalisation are inputs. The
 transaction is atomic: it commits as a whole or, when an upsert finds no row, not at all.
 */
module Extraction {
  import opened Wrappers

  type Id = string

  /** A label and its folded form; an absent label is empty. */
  datatype Label = Label(text: string, folded: string)

  datatype Candidate = Candidate(content: string, normalized: string, quote: string, subject: Label, relation: Label,
                                 target: Label, targetKey: string)

  datatype Segment = Segment(id: Id, content: string)

  /** What is loaded before the transaction. Peers are keyed by folded name and external key. */
  datatype Context = Context(project: Id, projectNames: set<string>, job: Id, record: Id, segments: seq<Segment>,
                             peers: map<string, Id>, profile: Option<Id>)

  datatype Claim = Claim(id: Id, project: Id, content: string, normalized: string, subject: Option<Id>, job: Id, ordinal: nat)

  /** The unique key of a source; the role is always "states". */
  datatype SourceKey = SourceKey(claim: Id, record: Id, segment: Option<Id>)

  datatype EdgeKey = EdgeKey(claim: Id, subject: string, relation: string, target: string)

  datatype EdgeEnds = EdgeEnds(subjectType: string, subjectLabel: string, targetType: string, targetLabel: string)

  /** An embedding job is identified by its claim and profile. */
  datatype Embed = Embed(claim: Id, profile: Id)

  datatype Db = Db(claims: seq<Claim>, sources: map<SourceKey, string>, edges: map<EdgeKey, EdgeEnds>, embeds: set<Embed>)

  const RELATIONS: set<string> :=
    {"MEMBER_OF", "USES", "OWNS", "IMPLEMENTS", "DEPENDS_ON", "RELATES_TO", "DECIDED", "HAS_STATUS", "LOCATED_IN", "PREFERS"}

  // Lookups

  predicate SameNormalized(c: Claim, project: Id, normalized: string) {
    c.project == project && c.normalized == normalized
  }

  predicate SameOrdinal(c: Claim, job: Id, ordinal: nat) {
    c.job == job && c.ordinal == ordinal
  }

  function ByNormalized(claims: seq<Claim>, project: Id, normalized: string): (r: Option<Id>)
    ensures r.Some? <==> exists i | 0 <= i < |claims| :: SameNormalized(claims[i], project, normalized)
    ensures r.Some? ==> exists i | 0 <= i < |claims| :: SameNormalized(claims[i], project, normalized) && claims[i].id == r.value
  {
    if claims == [] then None
    else if SameNormalized(claims[0], project, normalized) then Some(claims[0].id)
    else ByNormalized(claims[1..], project, normalized)
  }

  function ByOrdinal(claims: seq<Claim>, project: Id, job: Id, ordinal: nat): (r: Option<Id>)
    ensures r.Some? <==> exists i | 0 <= i < |claims| :: SameOrdinal(claims[i], job, ordinal) && claims[i].project == project
    ensures r.Some? ==> exists i | 0 <= i < |claims| :: SameOrdinal(claims[i], job, ordinal) && claims[i].project == project && claims[i].id == r.value
  {
    if claims == [] then None
    else if SameOrdinal(claims[0], job, ordinal) && claims[0].project == project then Some(claims[0].id)
    else ByOrdinal(claims[1..], project, job, ordinal)
  }

  /** Any unique constraint of the claim table that a new row would break. */
  predicate Conflicts(claims: seq<Claim>, ctx: Context, ordinal: nat, normalized: string, id: Id) {
    exists i | 0 <= i < |claims| ::
      claims[i].id == id || SameNormalized(claims[i], ctx.project, normalized) || SameOrdinal(claims[i], ctx.job, ordinal)
  }

  // Derived values

  predicate Contains(text: string, quote: string) {
    |quote| <= |text| && (text[..|quote|] == quote || (text != [] && Contains(text[1..], quote)))
  }

  function Quoting(segments: seq<Segment>, quote: string): Option<Id> {
    if segments == [] then None
    else if Contains(segments[0].content, quote) then Some(segments[0].id)
    else Quoting(segments[1..], quote)
  }

  function SourceSegment(segments: seq<Segment>, quote: string): Option<Id> {
    var first := if segments == [] then None else Some(segments[0].id);
    if quote == "" then first
    else match Quoting(segments, quote)
      case None => first
      case Some(id) => Some(id)
  }

  function StoredQuote(segments: seq<Segment>, quote: string): string {
    if quote != "" && Quoting(segments, quote).None? then "" else quote
  }

  function Peer(ctx: Context, name: Label): Option<Id> {
    if name.text != "" && name.folded in ctx.peers then Some(ctx.peers[name.folded]) else None
  }

  /** The edge of a new claim, if its subject, predicate and object can all be resolved. */
  function EdgeOf(ctx: Context, claim: Id, c: Candidate): Option<(EdgeKey, EdgeEnds)> {
    if c.subject.text == "" || c.relation.text == "" || c.target.text == "" then None
    else
      var subjectPeer := Peer(ctx, c.subject);
      if subjectPeer.None? && c.subject.folded !in ctx.projectNames then None
      else if c.relation.folded !in RELATIONS then None
      else
        var (subjectType, subjectKey) := if subjectPeer.Some? then ("peer", subjectPeer.value) else ("project", ctx.project);
        var targetPeer := Peer(ctx, c.target);
        var (targetType, targetKey) :=
          if targetPeer.Some? then ("peer", targetPeer.value)
          else if c.target.folded in ctx.projectNames then ("project", ctx.project)
          else ("literal", c.targetKey);
        if targetKey == "" && targetType == "literal" then None
        else Some((EdgeKey(claim, subjectKey, c.relation.folded, targetKey),
                   EdgeEnds(subjectType, c.subject.text, targetType, c.target.text)))
  }

  // The transaction

  function WithSource(db: Db, ctx: Context, claim: Id, c: Candidate): Db {
    var key := SourceKey(claim, ctx.record, SourceSegment(ctx.segments, c.quote));
    if key in db.sources then db else db.(sources := db.sources[key := StoredQuote(ctx.segments, c.quote)])
  }

  function WithEmbed(db: Db, ctx: Context, claim: Id): Db {
    match ctx.profile
    case None => db
    case Some(profile) => db.(embeds := db.embeds + {Embed(claim, profile)})
  }

  function WithEdge(db: Db, ctx: Context, claim: Id, c: Candidate): Db {
    match EdgeOf(ctx, claim, c)
    case None => db
    case Some((key, ends)) => if key in db.edges then db else db.(edges := db.edges[key := ends])
  }

  function NewClaim(ctx: Context, ordinal: nat, c: Candidate, id: Id): Claim {
    Claim(id, ctx.project, c.content, c.normalized, Peer(ctx, c.subject), ctx.job, ordinal)
  }

  function Inserted(db: Db, ctx: Context, ordinal: nat, c: Candidate, id: Id): Db {
    var with := WithSource(db.(claims := db.claims + [NewClaim(ctx, ordinal, c, id)]), ctx, id, c);
    WithEdge(WithEmbed(with, ctx, id), ctx, id, c)
  }

  /** The row an upsert that inserted nothing settles on. */
  function Resolved(claims: seq<Claim>, ctx: Context, ordinal: nat, normalized: string): Option<Id> {
    var same := ByOrdinal(claims, ctx.project, ctx.job, ordinal);
    if same.Some? then same else ByNormalized(claims, ctx.project, normalized)
  }

  /** One candidate; None is the error that rolls the transaction back. */
  function Upserted(db: Db, ctx: Context, ordinal: nat, c: Candidate, id: Id): Option<Db> {
    if c.normalized == "" then Some(db)
    else if !Conflicts(db.claims, ctx, ordinal, c.normalized, id) then Some(Inserted(db, ctx, ordinal, c, id))
    else match Resolved(db.claims, ctx, ordinal, c.normalized)
      case None => None
      case Some(claim) => Some(WithSource(db, ctx, claim, c))
  }

  /** The candidates from `ordinal` on. */
  function Extracted(db: Db, ctx: Context, candidates: seq<Candidate>, ids: seq<Id>, ordinal: nat): Option<Db>
    requires |ids| == |candidates| && ordinal <= |candidates|
    decreases |candidates| - ordinal
  {
    if ordinal == |candidates| then Some(db)
    else match Upserted(db, ctx, ordinal, candidates[ordinal], ids[ordinal])
      case None => None
      case Some(next) => Extracted(next, ctx, candidates, ids, ordinal + 1)
  }

  class ClaimStore {
    var db: Db

    constructor ()
      ensures db == Db([], map[], map[], {})
    {
      db := Db([], map[], map[], {});
    }

    /** The statements executed for one candidate, on the transaction's view of the tables. */
    static method Upsert(view: Db, ctx: Context, ordinal: nat, c: Candidate, id: Id) returns (r: Option<Db>)
      ensures r == Upserted(view, ctx, ordinal, c, id)
    {
      if c.normalized == "" {
        return Some(view);
      }
      var claims := view.claims;
      var target := None;
      if !Conflicts(claims, ctx, ordinal, c.normalized, id) {
        claims := claims + [NewClaim(ctx, ordinal, c, id)];
        target := Some(id);
      }
      var inserted := target.Some?;
      if target.None? {
        target := ByOrdinal(claims, ctx.project, ctx.job, ordinal);
      }
      if target.None? {
        target := ByNormalized(claims, ctx.project, c.normalized);
      }
      if target.None? {
        return None;
      }
      var after := view.(claims := claims);
      after := WithSource(after, ctx, target.value, c);
      if inserted {
        after := WithEmbed(after, ctx, id);
        after := WithEdge(after, ctx, id, c);
      }
      return Some(after);
    }

    /** Returns whether the transaction committed. */
    method ExtractClaims(ctx: Context, candidates: seq<Candidate>, ids: seq<Id>) returns (committed: bool)
      requires |ids| == |candidates|
      modifies this
      ensures var r := Extracted(old(db), ctx, candidates, ids, 0);
              committed == r.Some? && db == if r.Some? then r.value else old(db)
    {
      var view := db;
      var ordinal := 0;
      while ordinal < |candidates|
        invariant 0 <= ordinal <= |candidates| && db == old(db)
        invariant Extracted(db, ctx, candidates, ids, 0) == Extracted(view, ctx, candidates, ids, ordinal)
      {
        var r := Upsert(view, ctx, ordinal, candidates[ordinal], ids[ordinal]);
        if r.None? {
          return false;
        }
        view := r.value;
        ordinal := ordinal + 1;
      }
      db := view;
      return true;
    }
  }
}
