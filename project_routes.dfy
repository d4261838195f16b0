/** The project routes of server/routes/projects.js over an in-memory
    table: list newest first, create, merge-update and delete, each
    answering with an HTTP status. The document store is the table plus a
    `Fault` parameter that says whether its reads or its writes throw; the
    clock is a parameter. POST, PUT and DELETE sit behind the guard. */
module ProjectRoutes {
  import opened Common
  import opened ProjectSchema
  import Guard

  /** A project as the store returns it, with its identifier. */
  datatype Stored = Stored(id: Id, project: Project)

  /** A JSON response body. */
  datatype Reply = Message(text: string) | One(doc: Stored) | Many(docs: seq<Stored>)

  datatype Response = Response(status: nat, reply: Reply)

  const FetchFailed: string := "Error fetching projects"
  const InvalidProject: string := "Invalid project data or missing required fields"
  const NotFound: string := "Project not found"
  const UpdateFailed: string := "Error updating project"
  const Removed: string := "Project removed successfully"
  const DeleteFailed: string := "Error deleting project"

  /** Ordered by `createdAt`, newest first (`sort({ createdAt: -1 })`). */
  predicate NewestFirst(docs: seq<Stored>) {
    forall i, j :: 0 <= i < j < |docs| ==> docs[i].project.createdAt >= docs[j].project.createdAt
  }

  /** The identifiers of a list of documents, in order. */
  function IdsOf(docs: seq<Stored>): seq<Id> {
    seq(|docs|, i requires 0 <= i < |docs| => docs[i].id)
  }

  /** `docs` is the whole table: every stored project exactly once, as
      stored, newest first. */
  predicate Listing(docs: seq<Stored>, rows: map<Id, Project>) {
    && NewestFirst(docs)
    && multiset(IdsOf(docs)) == multiset(rows.Keys)
    && forall i :: 0 <= i < |docs| ==> docs[i].id in rows && docs[i].project == rows[docs[i].id]
  }

  /** How many leading documents are strictly newer than `t`. */
  function NewerPrefix(docs: seq<Stored>, t: nat): (k: nat)
    ensures k <= |docs|
    ensures forall i :: 0 <= i < k ==> docs[i].project.createdAt > t
    ensures k < |docs| ==> docs[k].project.createdAt <= t
  {
    if docs == [] || docs[0].project.createdAt <= t then 0
    else 1 + NewerPrefix(docs[1..], t)
  }

  /** `x` placed in a list ahead of the first document that is not newer
      than it. */
  function InsertNewest(docs: seq<Stored>, x: Stored): (r: seq<Stored>)
    ensures |r| == |docs| + 1
    ensures forall y :: y in r <==> y in docs || y == x
  {
    var k := NewerPrefix(docs, x.project.createdAt);
    assert docs == docs[..k] + docs[k..];
    docs[..k] + [x] + docs[k..]
  }

  /** Inserting keeps a newest-first list newest first. */
  lemma InsertKeepsOrder(docs: seq<Stored>, x: Stored)
    requires NewestFirst(docs)
    ensures NewestFirst(InsertNewest(docs, x))
  {
    var k := NewerPrefix(docs, x.project.createdAt);
    var r := InsertNewest(docs, x);
    assert forall i :: 0 <= i < k ==> r[i] == docs[i];
    assert r[k] == x;
    assert forall i :: k < i < |r| ==> r[i] == docs[i - 1];
    forall i, j | 0 <= i < j < |r|
      ensures r[i].project.createdAt >= r[j].project.createdAt
    {
      if i == k && j > k {
        assert docs[k].project.createdAt <= x.project.createdAt;
        assert docs[k].project.createdAt >= docs[j - 1].project.createdAt || j - 1 == k;
      }
    }
  }

  /** Inserting adds the new identifier once and loses none. */
  lemma InsertIds(docs: seq<Stored>, x: Stored)
    ensures multiset(IdsOf(InsertNewest(docs, x))) == multiset(IdsOf(docs)) + multiset{x.id}
  {
    var k := NewerPrefix(docs, x.project.createdAt);
    assert IdsOf(InsertNewest(docs, x)) == IdsOf(docs[..k]) + [x.id] + IdsOf(docs[k..]);
    assert IdsOf(docs) == IdsOf(docs[..k]) + IdsOf(docs[k..]);
  }

  /** GET / (lines 10-17): 500 when the store's read throws, otherwise
      200 with the whole table newest first. */
  predicate Listed(rows: map<Id, Project>, fault: Fault, r: Response) {
    if fault.ReadFails? then r == Response(500, Message(FetchFailed))
    else r.status == 200 && r.reply.Many? && Listing(r.reply.docs, rows)
  }

  /** POST / (lines 22-35), from the table `rows0` with `id` the next
      identifier to `rows1`: 400 and no change for a body the schema
      refuses or a write that throws, otherwise 201 with the new project
      stored under the fresh `id`. */
  predicate Created(rows0: map<Id, Project>, id: Id, rows1: map<Id, Project>, body: Body, now: nat, fault: Fault, r: Response) {
    var c := ProjectSchema.Create(body, now);
    if c.Err? || fault.WriteFails? then
      r == Response(400, Message(InvalidProject)) && rows1 == rows0
    else
      && r == Response(201, One(Stored(id, c.value)))
      && id !in rows0
      && rows1 == rows0[id := c.value]
  }

  /** PUT /:id (lines 40-56): 500 when the read throws, 404 for an unknown
      id, 500 when the merge does not validate or the write throws, and
      otherwise 200 with the merged project, which replaces that row only. */
  predicate Updated(rows0: map<Id, Project>, rows1: map<Id, Project>, id: Id, body: Body, now: nat, fault: Fault, r: Response) {
    if fault.ReadFails? then r == Response(500, Message(UpdateFailed)) && rows1 == rows0
    else if id !in rows0 then r == Response(404, Message(NotFound)) && rows1 == rows0
    else
      var u := ProjectSchema.Update(rows0[id], body, now);
      if u.Err? || fault.WriteFails? then
        r == Response(500, Message(UpdateFailed)) && rows1 == rows0
      else
        r == Response(200, One(Stored(id, u.value))) && rows1 == rows0[id := u.value]
  }

  /** DELETE /:id (lines 61-72): 500 and no change when the write throws,
      404 for an unknown id, otherwise 200 with that row removed. */
  predicate Deleted(rows0: map<Id, Project>, rows1: map<Id, Project>, id: Id, fault: Fault, r: Response) {
    if fault.WriteFails? then r == Response(500, Message(DeleteFailed)) && rows1 == rows0
    else if id !in rows0 then r == Response(404, Message(NotFound)) && rows1 == rows0
    else r == Response(200, Message(Removed)) && rows1 == rows0 - {id}
  }

  /** The project table and the next identifier to hand out. */
  class ProjectTable {
    var rows: map<Id, Project>
    var nextId: Id

    /** Every identifier in use was handed out already. */
    predicate Valid()
      reads this
    {
      forall k :: k in rows ==> k < nextId
    }

    constructor ()
      ensures Valid() && rows == map[]
    {
      rows, nextId := map[], 0;
    }

    /** GET / (lines 10-17): every project, newest first, or 500 when the
        store's read throws. Nothing changes. */
    method List(fault: Fault) returns (r: Response)
      ensures Listed(rows, fault, r)
    {
      if fault.ReadFails? {
        return Response(500, Message(FetchFailed));
      }
      var docs: seq<Stored> := [];
      var left := rows.Keys;
      while left != {}
        invariant left <= rows.Keys
        invariant NewestFirst(docs)
        invariant multiset(IdsOf(docs)) == multiset(rows.Keys - left)
        invariant forall i :: 0 <= i < |docs| ==> docs[i].id in rows && docs[i].project == rows[docs[i].id]
        decreases |left|
      {
        var k :| k in left;
        var next := InsertNewest(docs, Stored(k, rows[k]));
        InsertKeepsOrder(docs, Stored(k, rows[k]));
        InsertIds(docs, Stored(k, rows[k]));
        assert forall i :: 0 <= i < |next| ==> next[i] in docs || next[i] == Stored(k, rows[k]);
        assert rows.Keys - (left - {k}) == (rows.Keys - left) + {k};
        assert multiset((rows.Keys - left) + {k}) == multiset(rows.Keys - left) + multiset{k};
        docs := next;
        left := left - {k};
      }
      r := Response(200, Many(docs));
    }

    /** POST / (lines 22-35): store the picked, cast, default-filled and
        validated body under a fresh identifier and answer 201 with it; any
        failure answers 400 and stores nothing. */
    method Create(body: Body, now: nat, fault: Fault) returns (r: Response)
      requires Valid()
      modifies this
      ensures Valid()
      ensures Created(old(rows), old(nextId), rows, body, now, fault, r)
    {
      var c := ProjectSchema.Create(body, now);
      if c.Err? || fault.WriteFails? {
        return Response(400, Message(InvalidProject));
      }
      var id := nextId;
      rows := rows[id := c.value];
      nextId := nextId + 1;
      r := Response(201, One(Stored(id, c.value)));
    }

    /** PUT /:id (lines 40-56): merge the body onto the stored project and
        save it. An unknown id answers 404; a read or write that throws, a
        value that does not cast or a required path left empty answers 500.
        Only a successful save changes the table, and only that row. */
    method Update(id: Id, body: Body, now: nat, fault: Fault) returns (r: Response)
      requires Valid()
      modifies this
      ensures Valid() && nextId == old(nextId)
      ensures Updated(old(rows), rows, id, body, now, fault, r)
    {
      if fault.ReadFails? {
        return Response(500, Message(UpdateFailed));
      }
      if id !in rows {
        return Response(404, Message(NotFound));
      }
      var u := ProjectSchema.Update(rows[id], body, now);
      if u.Err? || fault.WriteFails? {
        return Response(500, Message(UpdateFailed));
      }
      rows := rows[id := u.value];
      r := Response(200, One(Stored(id, u.value)));
    }

    /** DELETE /:id (lines 61-72): remove the row and answer 200, answer
        404 when no row matched, 500 when the store's write throws. The id
        is gone afterwards, so deleting it again answers 404. */
    method Delete(id: Id, fault: Fault) returns (r: Response)
      requires Valid()
      modifies this
      ensures Valid() && nextId == old(nextId)
      ensures !fault.WriteFails? ==> id !in rows
      ensures Deleted(old(rows), rows, id, fault, r)
    {
      if fault.WriteFails? {
        return Response(500, Message(DeleteFailed));
      }
      if id !in rows {
        return Response(404, Message(NotFound));
      }
      rows := rows - {id};
      r := Response(200, Message(Removed));
    }

    /** The router: GET is public and answers the listing; the other three
        run only when the guard admits the request, and then answer and
        change the table as their routes do; otherwise the guard's first
        answer goes out and the table is untouched. Only the guard answers
        401. */
    method Handle(req: Request, authorization: Option<string>, verify: string -> Option<Id>, now: nat, fault: Fault) returns (r: Response)
      requires Valid()
      modifies this
      ensures Valid()
      ensures req.GetAll? ==> rows == old(rows) && Listed(rows, fault, r)
      ensures req.Post? && Admitted(authorization, verify) ==> Created(old(rows), old(nextId), rows, req.body, now, fault, r)
      ensures req.Put? && Admitted(authorization, verify) ==> Updated(old(rows), rows, req.id, req.body, now, fault, r)
      ensures req.Remove? && Admitted(authorization, verify) ==> Deleted(old(rows), rows, req.id, fault, r)
      ensures !req.GetAll? && !Admitted(authorization, verify) ==>
        rows == old(rows) && r == Response(401, Message(Guard.Responses(authorization, verify)[0].message))
      ensures r.status == 401 <==> !req.GetAll? && !Admitted(authorization, verify)
    {
      if req.GetAll? {
        r := List(fault);
        return;
      }
      var emitted := Guard.Protect(authorization, verify);
      if !emitted[0].Next? {
        return Response(401, Message(emitted[0].message));
      }
      match req
      case Post(body) => r := Create(body, now, fault);
      case Put(id, body) => r := Update(id, body, now, fault);
      case Remove(id) => r := Delete(id, fault);
    }
  }

  /** The four routes. */
  datatype Request = GetAll | Post(body: Body) | Put(id: Id, body: Body) | Remove(id: Id)

  /** The guard hands the request on. */
  predicate Admitted(authorization: Option<string>, verify: string -> Option<Id>) {
    Guard.Responses(authorization, verify)[0].Next?
  }

  /** An admitted request draws exactly one answer from the guard, the
      hand-on, so the handler's answer is the only one sent. */
  lemma AdmittedOnce(authorization: Option<string>, verify: string -> Option<Id>)
    requires Admitted(authorization, verify)
    ensures |Guard.Responses(authorization, verify)| == 1
  {
    var id := Guard.Responses(authorization, verify)[0].userId;
    Guard.NextOnlyWhenVerified(authorization, verify, id);
  }
}
