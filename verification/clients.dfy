/** The clients screen: create and edit through one form, and delete. Every handler
    replaces only the client list. */
module Clients {
  import opened Wrappers
  import opened Seqs
  import opened Text
  import opened Domain

  /** The form's fields; the form has no identifier input. */
  datatype ClientForm = ClientForm(
    name: string,
    nit: string,
    address: string,
    phone: string,
    email: string,
    contactPerson: Option<string>)

  /** The form as opened for a new client. */
  const BlankClientForm: ClientForm := ClientForm("", "", "", "", "", Some(""))

  /** The form as opened for editing `c`: seeded with the client's own fields. */
  function FormOf(c: Client): ClientForm {
    ClientForm(c.name, c.nit, c.address, c.phone, c.email, c.contactPerson)
  }

  function WithId(f: ClientForm, id: string): Client {
    Client(id, f.name, f.nit, f.address, f.phone, f.email, f.contactPerson)
  }

  /** A client's identifier: the creation timestamp's decimal text. */
  function ClientId(now: nat): string {
    NatToString(now)
  }

  /** The save button is accepted only with both a name and a tax number. */
  predicate Savable(f: ClientForm) {
    f.name != "" && f.nit != ""
  }

  /** `handleSave()`. `editing` is the client the form was opened for, if any, and
      `now` the timestamp. An incomplete form changes nothing. A new client is
      prepended; an edit rewrites, in place, the clients carrying the edited
      client's identifier, which the rewritten record keeps. */
  function SaveClient(s: AppState, editing: Option<Client>, f: ClientForm, now: nat): (r: AppState)
    ensures r == s.(clients := r.clients)
    ensures !Savable(f) ==> r == s
    ensures Savable(f) && editing.None? ==>
      && |r.clients| == |s.clients| + 1
      && r.clients[0] == WithId(f, ClientId(now))
      && r.clients[1..] == s.clients
    ensures Savable(f) && editing.Some? ==>
      && |r.clients| == |s.clients|
      && forall i :: 0 <= i < |s.clients| ==>
           r.clients[i] == if s.clients[i].id == editing.value.id then WithId(f, editing.value.id) else s.clients[i]
  {
    if !Savable(f) then s
    else match editing
      case Some(c) =>
        s.(clients := Replace(s.clients, (x: Client) => x.id == c.id, (x: Client) => WithId(f, c.id)))
      case None =>
        s.(clients := [WithId(f, ClientId(now))] + s.clients)
  }

  predicate DistinctClientIds(a: Client, b: Client) {
    a.id != b.id
  }

  predicate UniqueClientIds(cs: seq<Client>) {
    Pairwise(cs, DistinctClientIds)
  }

  /** Saving keeps client identifiers unique: an edit keeps every identifier, and a
      creation adds one, which must not be in use (two creations in the same
      millisecond would collide). */
  lemma SaveClientKeepsIdsUnique(s: AppState, editing: Option<Client>, f: ClientForm, now: nat)
    requires UniqueClientIds(s.clients)
    requires editing.None? ==> forall i :: 0 <= i < |s.clients| ==> s.clients[i].id != ClientId(now)
    ensures UniqueClientIds(SaveClient(s, editing, f, now).clients)
  {
    var rs := SaveClient(s, editing, f, now).clients;
    if Savable(f) {
      if editing.Some? {
        forall i, j | 0 <= i < j < |rs|
          ensures DistinctClientIds(rs[i], rs[j])
        {
          assert DistinctClientIds(s.clients[i], s.clients[j]);
        }
      } else {
        assert rs == [rs[0]] + s.clients;
        PairwisePrepend(rs[0], s.clients, DistinctClientIds);
      }
    }
  }

  /** Opening a client for editing and saving without changes leaves the state as it
      was, when identifiers are unique. */
  lemma SaveUnchangedEditIsNoOp(s: AppState, c: Client, now: nat)
    requires UniqueClientIds(s.clients)
    requires c in s.clients
    requires Savable(FormOf(c))
    ensures SaveClient(s, Some(c), FormOf(c), now) == s
  {
    var rs := SaveClient(s, Some(c), FormOf(c), now).clients;
    var k :| 0 <= k < |s.clients| && s.clients[k] == c;
    forall i | 0 <= i < |s.clients|
      ensures rs[i] == s.clients[i]
    {
      if i != k {
        if i < k {
          assert DistinctClientIds(s.clients[i], s.clients[k]);
        } else {
          assert DistinctClientIds(s.clients[k], s.clients[i]);
        }
      }
    }
  }

  /** A client created from the blank form with only a name and a tax number typed
      has every other field empty, its contact person included, and the timestamp
      as its identifier. */
  lemma NewClientFromBlankForm(s: AppState, name: string, nit: string, now: nat)
    requires name != "" && nit != ""
    ensures SaveClient(s, None, BlankClientForm.(name := name, nit := nit), now).clients[0]
      == Client(ClientId(now), name, nit, "", "", "", Some(""))
  {
  }

  function KeepsOtherClients(id: string): Client -> bool {
    (c: Client) => c.id != id
  }

  /** `handleDelete(id)`: on confirmation removes exactly the clients with that
      identifier; the quotes, reports and visits that name it are left alone. */
  function DeleteClient(s: AppState, id: string, confirm: bool): (r: AppState)
    ensures r == s.(clients := r.clients)
    ensures !confirm ==> r == s
    ensures confirm ==> forall c :: c in r.clients <==> c in s.clients && c.id != id
    ensures (forall i :: 0 <= i < |s.clients| ==> s.clients[i].id != id) ==> r == s
  {
    if confirm then s.(clients := Filter(s.clients, KeepsOtherClients(id))) else s
  }

  /** Deleting from a split list deletes from each part and joins the results, so
      every client with the id goes, however often it occurs, and the others stay
      in order and multiplicity. */
  lemma DeleteClientSplits(s: AppState, id: string, a: seq<Client>, b: seq<Client>)
    requires s.clients == a + b
    ensures DeleteClient(s, id, true).clients
      == DeleteClient(s.(clients := a), id, true).clients + DeleteClient(s.(clients := b), id, true).clients
  {
    FilterConcat(a, b, KeepsOtherClients(id));
  }

  /** Deleting keeps the other clients in their order. */
  lemma DeleteClientKeepsOrder(s: AppState, a: seq<Client>, c: Client, b: seq<Client>)
    requires s.clients == a + [c] + b
    requires forall i :: 0 <= i < |a| ==> a[i].id != c.id
    requires forall i :: 0 <= i < |b| ==> b[i].id != c.id
    ensures DeleteClient(s, c.id, true).clients == a + b
  {
    FilterDropsOne(a, c, b, KeepsOtherClients(c.id));
  }

  /** Deleting a client keeps its quotes, which then name a client that no longer
      exists. */
  lemma DeleteClientLeavesQuotesDangling(s: AppState, id: string, q: Quote)
    requires q in s.quotes && q.clientId == id
    ensures var r := DeleteClient(s, id, true);
      q in r.quotes && forall c :: c in r.clients ==> c.id != q.clientId
  {
  }
}
