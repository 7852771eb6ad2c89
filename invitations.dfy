/** The trainer–client invitation actions. The hosted `invitations` table is
    the field `rows` of `InvitationTable`; the signed-in user, the outcome of
    each write and the user-metadata join are given to each action as
    parameters, standing for the authentication service and the database. */
module Invitations {
  import opened Wrappers
  import opened Seqs

  datatype Status = Pending | Accepted | Rejected

  /** The two answers a client can give to an invitation. */
  datatype Decision = Accept | Reject

  function StatusOf(d: Decision): (s: Status)
    ensures s != Pending
  {
    match d
    case Accept => Accepted
    case Reject => Rejected
  }

  /** A row of the table; `clientId` is bound once the client accepts. */
  datatype Invitation = Invitation(
    id: string,
    trainerId: string,
    clientEmail: string,
    clientId: Option<string>,
    status: Status)

  /** The signed-in user. */
  datatype User = User(id: string, email: string)

  /** An error reported by the database. */
  datatype StoreError = StoreError(code: string, message: string)

  /** What an action returns: success with an optional message, or an
      error message. */
  datatype Outcome = Ok(message: Option<string>) | Err(error: string)

  const NotAuthenticated: string := "User not authenticated."
  const SelfInvite: string := "You cannot send an invitation to yourself."
  const AlreadySent: string := "An invitation has already been sent to this email."
  const Sent: string := "Invitation sent successfully!"
  /** The PostgreSQL code of a unique-constraint violation. */
  const UniqueViolation: string := "23505"

  /** The message `sendInvitation` returns for a failed insert. */
  function InsertErrorMessage(e: StoreError): (m: string)
    ensures e.code == UniqueViolation ==> m == AlreadySent
    ensures e.code != UniqueViolation ==> m == e.message
  {
    if e.code == UniqueViolation then AlreadySent else e.message
  }

  /** The update `updateInvitationStatus` sends: the new status and, only
      on acceptance, the client's id. */
  datatype Payload = Payload(status: Status, clientId: Option<string>)

  /** A row after the update `payload`, when the row is selected. */
  function Updated(row: Invitation, payload: Payload): Invitation {
    row.(status := payload.status,
         clientId := if payload.clientId.Some? then payload.clientId else row.clientId)
  }

  /** The rows the update touches: the given id, addressed to the caller. */
  predicate Selected(row: Invitation, invitationId: string, email: string) {
    row.id == invitationId && row.clientEmail == email
  }

  /** The update applied to the table: only rows with the given id and the
      caller's email change. */
  function ApplyUpdate(rows: seq<Invitation>, payload: Payload, invitationId: string, email: string): (r: seq<Invitation>)
    ensures |r| == |rows|
    ensures forall i :: 0 <= i < |rows| && Selected(rows[i], invitationId, email) ==> r[i] == Updated(rows[i], payload)
    ensures forall i :: 0 <= i < |rows| && !Selected(rows[i], invitationId, email) ==> r[i] == rows[i]
  {
    if rows == [] then []
    else
      [if Selected(rows[0], invitationId, email) then Updated(rows[0], payload) else rows[0]]
        + ApplyUpdate(rows[1..], payload, invitationId, email)
  }

  function RowId(row: Invitation): string { row.id }

  /** Rows sent by the given trainer. */
  function ByTrainer(trainerId: string): Invitation -> bool {
    (row: Invitation) => row.trainerId == trainerId
  }

  /** Pending rows addressed to the given email. */
  function PendingFor(email: string): Invitation -> bool {
    (row: Invitation) => row.clientEmail == email && row.status == Pending
  }

  /** A user's `raw_user_meta_data`, as far as it is read. */
  type Meta = map<string, string>

  /** The reshaped `client_details` or `trainer_details`: the two
      metadata fields, each undefined when missing. */
  datatype Details = Details(fullName: Option<string>, email: Option<string>)

  function Field(meta: Option<Meta>, name: string): (r: Option<string>)
    ensures r.Some? <==> meta.Some? && name in meta.value
    ensures r.Some? ==> r.value == meta.value[name]
  {
    if meta.Some? && name in meta.value then Some(meta.value[name]) else None
  }

  /** The full name and email read from a joined user's metadata, each
      missing when the user or the field is missing. */
  function Reshape(meta: Option<Meta>): (r: Details)
    ensures meta.None? ==> r == Details(None, None)
    ensures r.fullName == Field(meta, "full_name") && r.email == Field(meta, "email")
  {
    Details(Field(meta, "full_name"), Field(meta, "email"))
  }

  /** A listed row with the reshaped details of the other party. */
  datatype Entry = Entry(invitation: Invitation, details: Details)

  /** Each returned row paired with the reshaped details of the other
      party; `join` stands for the users join of the select. */
  function WithDetails(rows: seq<Invitation>, join: Invitation -> Option<Meta>): (r: seq<Entry>)
    ensures |r| == |rows|
    ensures forall i :: 0 <= i < |rows| ==> r[i] == Entry(rows[i], Reshape(join(rows[i])))
  {
    if rows == [] then [] else [Entry(rows[0], Reshape(join(rows[0])))] + WithDetails(rows[1..], join)
  }

  /** What a list query returns: the rows, or an error with `data: []`
      (`Some([])`) or without `data` (`None`). */
  datatype Listing = Listed(data: seq<Entry>) | NotListed(error: string, emptyData: Option<seq<Entry>>)

  class InvitationTable {
    var rows: seq<Invitation>

    /** Ids are unique; a pending invitation has no client yet and an
        accepted one has. */
    ghost predicate Valid()
      reads this
    {
      && DistinctBy(rows, RowId)
      && (forall i :: 0 <= i < |rows| && rows[i].status == Pending ==> rows[i].clientId.None?)
      && (forall i :: 0 <= i < |rows| && rows[i].status == Accepted ==> rows[i].clientId.Some?)
    }

    constructor (rows0: seq<Invitation>)
      requires DistinctBy(rows0, RowId)
      requires forall i :: 0 <= i < |rows0| && rows0[i].status == Pending ==> rows0[i].clientId.None?
      requires forall i :: 0 <= i < |rows0| && rows0[i].status == Accepted ==> rows0[i].clientId.Some?
      ensures Valid() && rows == rows0
    {
      rows := rows0;
    }

    /** `sendInvitation`: refuses a signed-out caller and a self-invite
        before any write, then inserts one pending row; `insertError` is
        what the database answers, and a failed insert adds nothing. */
    method SendInvitation(auth: Option<User>, clientEmail: string, newId: string, insertError: Option<StoreError>)
      returns (r: Outcome)
      requires Valid()
      requires forall row :: row in rows ==> row.id != newId
      modifies this
      ensures Valid()
      ensures auth.None? ==> r == Err(NotAuthenticated) && rows == old(rows)
      ensures auth.Some? && auth.value.email == clientEmail ==> r == Err(SelfInvite) && rows == old(rows)
      ensures auth.Some? && auth.value.email != clientEmail && insertError.Some? ==>
                r == Err(InsertErrorMessage(insertError.value)) && rows == old(rows)
      ensures auth.Some? && auth.value.email != clientEmail && insertError.None? ==>
                && r == Ok(Some(Sent))
                && rows == old(rows) + [Invitation(newId, auth.value.id, clientEmail, None, Pending)]
      ensures r.Ok? <==> auth.Some? && auth.value.email != clientEmail && insertError.None?
    {
      if auth.None? {
        return Err(NotAuthenticated);
      }
      var user := auth.value;
      if user.email == clientEmail {
        return Err(SelfInvite);
      }
      if insertError.Some? {
        return Err(InsertErrorMessage(insertError.value));
      }
      rows := rows + [Invitation(newId, user.id, clientEmail, None, Pending)];
      r := Ok(Some(Sent));
    }

    /** `updateInvitationStatus`: refuses a signed-out caller, builds the
        payload, and updates the rows with the id that are addressed to the
        caller; `updateError` is what the database answers. Matching no row
        is still a success. */
    method UpdateInvitationStatus(auth: Option<User>, invitationId: string, decision: Decision, updateError: Option<StoreError>)
      returns (r: Outcome)
      requires Valid()
      modifies this
      ensures Valid()
      ensures auth.None? ==> r == Err(NotAuthenticated) && rows == old(rows)
      ensures auth.Some? && updateError.Some? ==> r == Err(updateError.value.message) && rows == old(rows)
      ensures auth.Some? && updateError.None? ==>
                && r == Ok(None)
                && rows == ApplyUpdate(old(rows), PayloadFor(decision, auth.value), invitationId, auth.value.email)
      ensures |rows| == |old(rows)|
      ensures forall i :: 0 <= i < |rows| && (auth.None? || !Selected(old(rows)[i], invitationId, auth.value.email)) ==>
                rows[i] == old(rows)[i]
    {
      if auth.None? {
        return Err(NotAuthenticated);
      }
      var user := auth.value;
      var payload := Payload(StatusOf(decision), None);
      if decision == Accept {
        payload := payload.(clientId := Some(user.id));
      }
      assert payload == PayloadFor(decision, user);
      if updateError.Some? {
        return Err(updateError.value.message);
      }
      var old_rows := rows;
      rows := ApplyUpdate(rows, payload, invitationId, user.email);
      assert forall i :: 0 <= i < |rows| ==> RowId(rows[i]) == RowId(old_rows[i]);
      r := Ok(None);
    }

    /** `getClientsForTrainer`: the caller's invitations as trainer, each
        with the invitee's details from `join`. */
    method ClientsForTrainer(auth: Option<User>, join: Invitation -> Option<Meta>, selectError: Option<StoreError>)
      returns (r: Listing)
      ensures auth.None? ==> r == NotListed(NotAuthenticated, None)
      ensures auth.Some? && selectError.Some? ==> r == NotListed(selectError.value.message, Some([]))
      ensures auth.Some? && selectError.None? ==> r.Listed?
      ensures r.Listed? ==> r.data == WithDetails(Filter(rows, ByTrainer(auth.value.id)), join)
      ensures r.Listed? ==> forall e :: e in r.data ==> e.invitation in rows && e.invitation.trainerId == auth.value.id
      ensures r.Listed? ==> forall row :: row in rows && row.trainerId == auth.value.id ==>
                exists e :: e in r.data && e.invitation == row
    {
      if auth.None? {
        return NotListed(NotAuthenticated, None);
      }
      if selectError.Some? {
        return NotListed(selectError.value.message, Some([]));
      }
      var mine := Filter(rows, ByTrainer(auth.value.id));
      FilterMembers(rows, ByTrainer(auth.value.id));
      var data := WithDetails(mine, join);
      forall e | e in data ensures e.invitation in mine {
        var i :| 0 <= i < |data| && data[i] == e;
        assert mine[i] in mine;
      }
      forall row | row in mine ensures exists e :: e in data && e.invitation == row {
        var i :| 0 <= i < |mine| && mine[i] == row;
        assert data[i].invitation == row;
      }
      r := Listed(data);
    }

    /** `getPendingInvitationsForClient`: the pending invitations
        addressed to the caller's email, each with the inviting trainer's
        details from `join`. */
    method PendingInvitationsForClient(auth: Option<User>, join: Invitation -> Option<Meta>, selectError: Option<StoreError>)
      returns (r: Listing)
      ensures auth.None? ==> r == NotListed(NotAuthenticated, Some([]))
      ensures auth.Some? && selectError.Some? ==> r == NotListed(selectError.value.message, Some([]))
      ensures auth.Some? && selectError.None? ==> r.Listed?
      ensures r.Listed? ==> r.data == WithDetails(Filter(rows, PendingFor(auth.value.email)), join)
      ensures r.Listed? ==> forall e :: e in r.data ==>
                e.invitation in rows && e.invitation.clientEmail == auth.value.email && e.invitation.status == Pending
      ensures r.Listed? ==> forall row :: row in rows && row.clientEmail == auth.value.email && row.status == Pending ==>
                exists e :: e in r.data && e.invitation == row
    {
      if auth.None? {
        return NotListed(NotAuthenticated, Some([]));
      }
      if selectError.Some? {
        return NotListed(selectError.value.message, Some([]));
      }
      var mine := Filter(rows, PendingFor(auth.value.email));
      FilterMembers(rows, PendingFor(auth.value.email));
      var data := WithDetails(mine, join);
      forall e | e in data ensures e.invitation in mine {
        var i :| 0 <= i < |data| && data[i] == e;
        assert mine[i] in mine;
      }
      forall row | row in mine ensures exists e :: e in data && e.invitation == row {
        var i :| 0 <= i < |mine| && mine[i] == row;
        assert data[i].invitation == row;
      }
      r := Listed(data);
    }
  }

  /** The payload for a decision of `user`. */
  function PayloadFor(decision: Decision, user: User): (p: Payload)
    ensures p.status == StatusOf(decision)
    ensures decision == Accept <==> p.clientId == Some(user.id)
    ensures decision == Reject <==> p.clientId.None?
  {
    Payload(StatusOf(decision), if decision == Accept then Some(user.id) else None)
  }

  /** After a client's decision on an invitation, it no longer shows among
      that client's pending invitations, and the client's other pending
      invitations are still there. */
  lemma {:induction false} DecidedLeavesPending(rows: seq<Invitation>, user: User, invitationId: string, decision: Decision)
    ensures Filter(ApplyUpdate(rows, PayloadFor(decision, user), invitationId, user.email), PendingFor(user.email))
         == Filter(rows, (row: Invitation) => PendingFor(user.email)(row) && row.id != invitationId)
    decreases |rows|
  {
    if rows != [] {
      var init, last := rows[..|rows| - 1], rows[|rows| - 1];
      var updated := ApplyUpdate(rows, PayloadFor(decision, user), invitationId, user.email);
      var u := ApplyUpdate(init, PayloadFor(decision, user), invitationId, user.email);
      var q := (row: Invitation) => PendingFor(user.email)(row) && row.id != invitationId;
      assert rows == init + [last];
      assert updated == u + [updated[|rows| - 1]] by {
        assert |u| == |init|;
        forall i | 0 <= i < |init| ensures updated[i] == u[i] {
          assert rows[i] == init[i];
        }
      }
      DecidedLeavesPending(init, user, invitationId, decision);
      FilterSnoc(u, updated[|rows| - 1], PendingFor(user.email));
      FilterSnoc(init, last, q);
      assert PendingFor(user.email)(updated[|rows| - 1]) == q(last);
    }
  }

  /** An accepted invitation names the accepting client, whatever it held
      before; a rejected one keeps its client binding. */
  lemma AcceptBindsClient(row: Invitation, user: User, decision: Decision)
    ensures decision == Accept ==> Updated(row, PayloadFor(decision, user)) == row.(status := Accepted, clientId := Some(user.id))
    ensures decision == Reject ==> Updated(row, PayloadFor(decision, user)) == row.(status := Rejected)
  {
  }

  /** A sent invitation shows among the invitee's pending invitations, and
      among the sender's clients. */
  lemma SentIsListed(rows: seq<Invitation>, newId: string, trainer: User, clientEmail: string)
    ensures var row := Invitation(newId, trainer.id, clientEmail, None, Pending);
      && row in Filter(rows + [row], PendingFor(clientEmail))
      && row in Filter(rows + [row], ByTrainer(trainer.id))
  {
    var row := Invitation(newId, trainer.id, clientEmail, None, Pending);
    var p, q := PendingFor(clientEmail), ByTrainer(trainer.id);
    assert p(row) && q(row);
    FilterSnoc(rows, row, p);
    FilterSnoc(rows, row, q);
    assert row in Filter(rows, p) + [row];
    assert row in Filter(rows, q) + [row];
  }
}
