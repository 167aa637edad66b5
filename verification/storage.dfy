/** Local persistence and the cloud payloads: the initial state, loading and saving
    the stored document, when a save starts a push, the push itself, and the fetch
    that a pull is built on.

    The stored document's text format is a parameter: `serialize` stands for
    `JSON.stringify` and `parse` for `JSON.parse` followed by reading the result as
    an application state (`None` when the text does not parse). Network answers
    are inputs too, so the model describes what is sent and what is done with each
    possible answer. */
module Storage {
  import opened Wrappers
  import opened Seqs
  import opened Domain

  /** The sync settings of a fresh installation: off, with no address and no key. */
  const OfflineConfig: SyncConfig := SyncConfig(false, "", "", None)

  /** The state of a fresh installation. */
  const InitialData: AppState := AppState([], [], [], [], [], [], Some(OfflineConfig))

  /** The initial state holds no records, and a save of it never starts a push. */
  predicate IsEmptyAndOffline(s: AppState) {
    && s.clients == [] && s.technicians == [] && s.quotes == []
    && s.visits == [] && s.reports == [] && s.maintenance == []
    && s.syncConfig.Some? && !s.syncConfig.value.enabled
    && s.syncConfig.value.supabaseUrl == "" && s.syncConfig.value.supabaseKey == ""
  }

  /** `loadData()`. Without a browser window, without a stored document, with an
      empty one or with one that does not parse, it falls back to the initial state;
      otherwise it gives back the parsed state. */
  function LoadData(hasWindow: bool, stored: Option<string>, parse: string -> Option<AppState>): (r: AppState)
    ensures !hasWindow ==> r == InitialData
    ensures stored.None? || stored == Some("") ==> r == InitialData
    ensures hasWindow && stored.Some? && stored.value != "" ==>
      (parse(stored.value).None? ==> r == InitialData) &&
      (parse(stored.value).Some? ==> r == parse(stored.value).value)
    ensures IsEmptyAndOffline(r) || (stored.Some? && parse(stored.value) == Some(r))
  {
    if !hasWindow then InitialData
    else match stored
      case None => InitialData
      case Some(text) =>
        if text == "" then InitialData
        else parse(text).GetOr(InitialData)
  }

  /** The condition under which a save starts a push: sync is switched on and both
      the address and the key are filled in. */
  predicate PushTriggered(cfg: Option<SyncConfig>) {
    cfg.Some? && cfg.value.enabled && cfg.value.supabaseUrl != "" && cfg.value.supabaseKey != ""
  }

  /** What a save does: the document written to storage, if any, and whether a push
      was started. */
  datatype SaveEffect = SaveEffect(document: Option<string>, pushStarted: bool)

  /** `saveData(data)`. With a browser window it writes the serialized state and then
      starts a push exactly when the sync settings allow it; without one it does
      nothing. */
  function SaveData(s: AppState, hasWindow: bool, serialize: AppState -> string): (r: SaveEffect)
    ensures !hasWindow ==> r == SaveEffect(None, false)
    ensures hasWindow ==> r.document == Some(serialize(s))
    ensures r.pushStarted ==> hasWindow && s.syncConfig.Some? && s.syncConfig.value.enabled
    ensures r.pushStarted <==> hasWindow && PushTriggered(s.syncConfig)
  {
    if hasWindow then SaveEffect(Some(serialize(s)), PushTriggered(s.syncConfig))
    else SaveEffect(None, false)
  }

  /** Saving and loading again gives back the saved state, when the text format
      reads back what it writes. */
  lemma LoadAfterSave(s: AppState, serialize: AppState -> string, parse: string -> Option<AppState>)
    requires serialize(s) != "" && parse(serialize(s)) == Some(s)
    ensures LoadData(true, SaveData(s, true, serialize).document, parse) == s
  {
  }

  /** The initial state is empty and offline, is what a missing document loads as,
      and saving it never starts a push. */
  lemma InitialDataIsEmptyAndOffline(serialize: AppState -> string, parse: string -> Option<AppState>)
    ensures IsEmptyAndOffline(InitialData)
    ensures LoadData(true, None, parse) == InitialData
    ensures !SaveData(InitialData, true, serialize).pushStarted
  {
  }

  /** A client row of the remote `clients` table: the contact person travels under
      the column name `contact_person`. */
  datatype RemoteClient = RemoteClient(
    id: string,
    name: string,
    nit: string,
    address: string,
    phone: string,
    email: string,
    contact_person: Option<string>)

  /** The client row a push sends. */
  function ToRemoteClient(c: Client): RemoteClient {
    RemoteClient(c.id, c.name, c.nit, c.address, c.phone, c.email, c.contactPerson)
  }

  /** The client a pulled row is read back as. */
  function FromRemoteClient(r: RemoteClient): Client {
    Client(r.id, r.name, r.nit, r.address, r.phone, r.email, r.contact_person)
  }

  /** The two client mappings are inverse to each other, in both directions. */
  lemma ClientMappingRoundTrip(c: Client, r: RemoteClient)
    ensures FromRemoteClient(ToRemoteClient(c)) == c
    ensures ToRemoteClient(FromRemoteClient(r)) == r
    ensures ToRemoteClient(c).contact_person == c.contactPerson
  {
  }

  /** Pushing a list of clients and pulling the rows back gives the same list. */
  lemma ClientListRoundTrip(cs: seq<Client>)
    ensures Map(Map(cs, ToRemoteClient), FromRemoteClient) == cs
  {
    MapInverse(cs, ToRemoteClient, FromRemoteClient);
  }

  /** A quote row of the remote `quotes` table: the identifier and client as
      columns, and the whole quote as an opaque `data` document. */
  datatype RemoteQuote = RemoteQuote(id: string, client_id: string, data: Quote)

  /** The quote row a push sends. */
  function ToRemoteQuote(q: Quote): RemoteQuote {
    RemoteQuote(q.id, q.clientId, q)
  }

  /** The quote a pulled row is read back as: only the `data` document counts. */
  function FromRemoteQuote(r: RemoteQuote): Quote {
    r.data
  }

  /** Wrapping a quote copies its identifier and client into the columns, and
      unwrapping gives the quote back. A row whose columns disagree with its
      document is read back as the document, so the columns are never consulted. */
  lemma QuoteMappingRoundTrip(q: Quote, r: RemoteQuote)
    ensures ToRemoteQuote(q).id == q.id && ToRemoteQuote(q).client_id == q.clientId
    ensures FromRemoteQuote(ToRemoteQuote(q)) == q
    ensures ToRemoteQuote(FromRemoteQuote(r)) == r <==> r.id == r.data.id && r.client_id == r.data.clientId
  {
  }

  /** Pushing a list of quotes and pulling the rows back gives the same list. */
  lemma QuoteListRoundTrip(qs: seq<Quote>)
    ensures Map(Map(qs, ToRemoteQuote), FromRemoteQuote) == qs
  {
    MapInverse(qs, ToRemoteQuote, FromRemoteQuote);
  }

  /** How one awaited POST ended: it settled (whatever the HTTP status) or it threw. */
  datatype PostOutcome = Settled | Threw

  /** One upsert request of a push. */
  datatype PushRequest =
    | UpsertClients(clientRows: seq<RemoteClient>)
    | UpsertQuotes(quoteRows: seq<RemoteQuote>)

  /** What a push did: the requests it sent, in order, and the state it wrote back to
      storage, if it got that far. */
  datatype PushTrace = PushTrace(requests: seq<PushRequest>, written: Option<AppState>)

  /** The state with the push time recorded as the last synchronisation. */
  function WithLastSync(s: AppState, now: string): AppState
    requires s.syncConfig.Some?
  {
    s.(syncConfig := Some(s.syncConfig.value.(lastSync := Some(now))))
  }

  /** `syncToSupabase(data)`, reached only through a save whose sync settings are
      present. The client rows are posted first, only when there are clients, and
      the quote rows after, only when there are quotes, so each is posted at most
      once and the quote rows never before the client rows. Both steps run in one
      `try`: a POST that throws ends the push, skipping what is left and the
      write-back. A POST that settles with an error status does not throw. When both
      steps get through, the stored state is the pushed one with only the
      last-sync time changed. */
  function Push(s: AppState, clientsPost: PostOutcome, quotesPost: PostOutcome, now: string): (r: PushTrace)
    requires s.syncConfig.Some?
    ensures |r.requests| ==
      (if |s.clients| > 0 then 1 else 0) +
      (if |s.quotes| > 0 && (|s.clients| == 0 || clientsPost.Settled?) then 1 else 0)
    ensures forall i :: 0 <= i < |r.requests| ==>
      r.requests[i] == UpsertClients(Map(s.clients, ToRemoteClient)) ||
      r.requests[i] == UpsertQuotes(Map(s.quotes, ToRemoteQuote))
    ensures UpsertClients(Map(s.clients, ToRemoteClient)) in r.requests <==> |s.clients| > 0
    ensures |s.clients| > 0 ==> r.requests[0] == UpsertClients(Map(s.clients, ToRemoteClient))
    ensures UpsertQuotes(Map(s.quotes, ToRemoteQuote)) in r.requests ==>
      r.requests[|r.requests| - 1] == UpsertQuotes(Map(s.quotes, ToRemoteQuote))
    ensures UpsertQuotes(Map(s.quotes, ToRemoteQuote)) in r.requests <==>
      |s.quotes| > 0 && (|s.clients| == 0 || clientsPost.Settled?)
    ensures r.written.Some? <==>
      (|s.clients| == 0 || clientsPost.Settled?) && (|s.quotes| == 0 || quotesPost.Settled?)
    ensures r.written.Some? ==>
      && r.written.value == s.(syncConfig := r.written.value.syncConfig)
      && r.written.value.syncConfig == Some(s.syncConfig.value.(lastSync := Some(now)))
  {
    var clientSteps := if |s.clients| > 0 then [UpsertClients(Map(s.clients, ToRemoteClient))] else [];
    if |s.clients| > 0 && clientsPost.Threw? then PushTrace(clientSteps, None)
    else
      var quoteSteps := if |s.quotes| > 0 then [UpsertQuotes(Map(s.quotes, ToRemoteQuote))] else [];
      assert UpsertQuotes(Map(s.quotes, ToRemoteQuote)) !in clientSteps;
      if |s.quotes| > 0 && quotesPost.Threw? then PushTrace(clientSteps + quoteSteps, None)
      else PushTrace(clientSteps + quoteSteps, Some(WithLastSync(s, now)))
  }

  /** A push of a state with no clients and no quotes sends nothing and still
      records the synchronisation. */
  lemma EmptyPushRecordsSync(s: AppState, clientsPost: PostOutcome, quotesPost: PostOutcome, now: string)
    requires s.syncConfig.Some? && s.clients == [] && s.quotes == []
    ensures Push(s, clientsPost, quotesPost, now) == PushTrace([], Some(WithLastSync(s, now)))
  {
  }

  /** A failure of the client step leaves the quotes unpushed, even though the quote
      endpoint might have accepted them. */
  lemma ClientFailureSkipsQuotes(s: AppState, quotesPost: PostOutcome, now: string)
    requires s.syncConfig.Some? && |s.clients| > 0 && |s.quotes| > 0
    ensures Push(s, Threw, quotesPost, now).requests == [UpsertClients(Map(s.clients, ToRemoteClient))]
    ensures Push(s, Threw, quotesPost, now).written.None?
  {
  }

  /** The answer to one GET: the request threw, or it was answered with an HTTP
      status (`ok`) and a body that reads as a list of rows or not. */
  datatype Response<T> = NetworkError | Answered(ok: bool, body: Option<seq<T>>)

  /** A part of the application state: the collections a pull brought back. */
  datatype PartialState = PartialState(clients: Option<seq<Client>>, quotes: Option<seq<Quote>>)

  /** Why a fetch failed. */
  datatype PullError = RequestFailed | NotOk | UnreadableBody

  /** `fetchFromSupabase(config)`. Both tables are requested together; if either
      request throws, either answer has an error status, or either body does not
      read as a list of rows, the whole fetch fails. Otherwise both collections come
      back, client rows renamed back and quotes unwrapped from their documents. */
  function FetchFromRemote(clientsRes: Response<RemoteClient>, quotesRes: Response<RemoteQuote>): (r: Result<PartialState, PullError>)
    ensures r.Success? <==>
      && clientsRes.Answered? && clientsRes.ok && clientsRes.body.Some?
      && quotesRes.Answered? && quotesRes.ok && quotesRes.body.Some?
    ensures r.Success? ==>
      && r.value.clients == Some(Map(clientsRes.body.value, FromRemoteClient))
      && r.value.quotes == Some(Map(quotesRes.body.value, FromRemoteQuote))
    ensures clientsRes.NetworkError? || quotesRes.NetworkError? ==> r == Failure(RequestFailed)
    ensures clientsRes.Answered? && quotesRes.Answered? && (!clientsRes.ok || !quotesRes.ok) ==>
      r == Failure(NotOk)
  {
    if clientsRes.NetworkError? || quotesRes.NetworkError? then Failure(RequestFailed)
    else if !clientsRes.ok || !quotesRes.ok then Failure(NotOk)
    else if clientsRes.body.None? || quotesRes.body.None? then Failure(UnreadableBody)
    else Success(PartialState(
      Some(Map(clientsRes.body.value, FromRemoteClient)),
      Some(Map(quotesRes.body.value, FromRemoteQuote))))
  }

  /** What a completed push stored remotely comes back unchanged from a fetch: the
      pulled clients and quotes are the pushed ones. */
  lemma PushThenFetch(s: AppState, now: string)
    requires s.syncConfig.Some? && |s.clients| > 0 && |s.quotes| > 0
    ensures var t := Push(s, Settled, Settled, now);
      && t.requests == [UpsertClients(t.requests[0].clientRows), UpsertQuotes(t.requests[1].quoteRows)]
      && FetchFromRemote(Answered(true, Some(t.requests[0].clientRows)), Answered(true, Some(t.requests[1].quoteRows)))
           == Success(PartialState(Some(s.clients), Some(s.quotes)))
  {
    var t := Push(s, Settled, Settled, now);
    assert t.requests[0] == UpsertClients(Map(s.clients, ToRemoteClient));
    assert t.requests[1] == UpsertQuotes(Map(s.quotes, ToRemoteQuote));
    ClientListRoundTrip(s.clients);
    QuoteListRoundTrip(s.quotes);
  }
}
