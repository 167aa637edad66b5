/** The settings screen: restoring a backup, pulling the clients and quotes from the
    cloud, saving the sync settings, and resetting to a fresh installation. Browser
    prompts become boolean answers and alerts become the `Notice` a step ends with. */
module Settings {
  import opened Wrappers
  import opened Seqs
  import opened Domain
  import opened Storage

  /** `handleImport(event)`. Without a chosen file, with a file whose text does not
      parse, or when the overwrite is refused, the state is untouched; a confirmed
      backup replaces the whole state. Nothing in between is possible. */
  function Import(s: AppState, file: Option<string>, parse: string -> Option<AppState>, confirm: bool): (r: AppState)
    ensures file.None? || !confirm ==> r == s
    ensures file.Some? && parse(file.value).None? ==> r == s
    ensures file.Some? && parse(file.value).Some? && confirm ==> r == parse(file.value).value
    ensures r == s || (file.Some? && parse(file.value) == Some(r))
  {
    match file
    case None => s
    case Some(text) =>
      match parse(text)
      case None => s
      case Some(backup) => if confirm then backup else s
  }

  /** Exporting a state and importing the document again, confirmed, gives back the
      exported state, whatever was there before, when the text format reads back
      what it writes. */
  lemma ExportThenImport(s: AppState, exported: AppState, serialize: AppState -> string, parse: string -> Option<AppState>)
    requires parse(serialize(exported)) == Some(exported)
    ensures Import(s, Some(serialize(exported)), parse, true) == exported
    ensures Import(s, Some(serialize(exported)), parse, false) == s
  {
  }

  /** The merge of a pull into the state: a collection the pull brought back
      replaces the local one, even when it is empty (an empty list still counts as
      present), an absent one keeps the local one, and everything else stays. */
  function MergePull(prev: AppState, cloud: PartialState): (r: AppState)
    ensures r == prev.(clients := r.clients, quotes := r.quotes)
    ensures cloud.clients.Some? ==> r.clients == cloud.clients.value
    ensures cloud.clients.None? ==> r.clients == prev.clients
    ensures cloud.quotes.Some? ==> r.quotes == cloud.quotes.value
    ensures cloud.quotes.None? ==> r.quotes == prev.quotes
  {
    prev.(clients := cloud.clients.GetOr(prev.clients), quotes := cloud.quotes.GetOr(prev.quotes))
  }

  /** A pull that brought back only clients leaves the quotes and every other
      collection as they were. */
  lemma ClientsOnlyPullKeepsRest(prev: AppState, cs: seq<Client>)
    ensures var r := MergePull(prev, PartialState(Some(cs), None));
      && r.clients == cs && r.quotes == prev.quotes
      && r.technicians == prev.technicians && r.visits == prev.visits
      && r.reports == prev.reports && r.maintenance == prev.maintenance
      && r.syncConfig == prev.syncConfig
  {
  }

  /** The alert a pull ends with; `Silent` when the download was refused. */
  datatype Notice = ConfigMissing | ConnectionFailed | Synced | Silent

  /** The state after a pull, the in-progress flag, and the alert shown. */
  datatype PullStep = PullStep(state: AppState, syncing: bool, notice: Notice)

  /** The guard of a pull: an address and a key are saved. */
  predicate PullConfigured(s: AppState) {
    s.syncConfig.Some? && s.syncConfig.value.supabaseUrl != "" && s.syncConfig.value.supabaseKey != ""
  }

  /** `handlePullFromCloud()`. Without a saved address and key it only alerts, with
      the in-progress flag as it was. Otherwise it fetches; a failed fetch alerts and
      changes nothing, a fetched result is merged only when the download is
      confirmed, and in every case the in-progress flag ends cleared. */
  function PullFromCloud(
    s: AppState, syncing: bool,
    clientsRes: Response<RemoteClient>, quotesRes: Response<RemoteQuote>, confirm: bool): (r: PullStep)
    ensures !PullConfigured(s) ==> r == PullStep(s, syncing, ConfigMissing)
    ensures PullConfigured(s) ==> !r.syncing
    ensures PullConfigured(s) && FetchFromRemote(clientsRes, quotesRes).Failure? ==>
      r.state == s && r.notice == ConnectionFailed
    ensures PullConfigured(s) && FetchFromRemote(clientsRes, quotesRes).Success? && !confirm ==>
      r.state == s && r.notice == Silent
    ensures PullConfigured(s) && FetchFromRemote(clientsRes, quotesRes).Success? && confirm ==>
      r.state == MergePull(s, FetchFromRemote(clientsRes, quotesRes).value) && r.notice == Synced
    ensures r.state == s.(clients := r.state.clients, quotes := r.state.quotes)
  {
    if !PullConfigured(s) then PullStep(s, syncing, ConfigMissing)
    else match FetchFromRemote(clientsRes, quotesRes)
      case Failure(_) => PullStep(s, false, ConnectionFailed)
      case Success(cloud) =>
        if confirm then PullStep(MergePull(s, cloud), false, Synced)
        else PullStep(s, false, Silent)
  }

  /** A confirmed pull of empty remote tables empties the local clients and quotes,
      however many there were. */
  lemma EmptyPullClearsLocal(s: AppState, syncing: bool)
    requires PullConfigured(s)
    ensures var r := PullFromCloud(s, syncing, Answered(true, Some([])), Answered(true, Some([])), true);
      r.state.clients == [] && r.state.quotes == [] && r.notice == Synced
  {
  }

  /** Pulling right after a completed push, and confirming, leaves the state as it
      was: the rows read back are the records pushed. */
  lemma PullAfterPushIsNoOp(s: AppState, syncing: bool)
    requires PullConfigured(s)
    ensures PullFromCloud(
      s, syncing,
      Answered(true, Some(Map(s.clients, ToRemoteClient))),
      Answered(true, Some(Map(s.quotes, ToRemoteQuote))),
      true).state == s
  {
    ClientListRoundTrip(s.clients);
    QuoteListRoundTrip(s.quotes);
  }

  /** The settings form as first shown: the saved sync settings, or sync switched off
      with no address and no key. */
  function TempConfigOf(s: AppState): (c: SyncConfig)
    ensures s.syncConfig.Some? ==> c == s.syncConfig.value
    ensures s.syncConfig.None? ==> !c.enabled && c.supabaseUrl == "" && c.supabaseKey == ""
  {
    s.syncConfig.GetOr(OfflineConfig)
  }

  /** `saveSyncConfig()`: stores the edited settings and changes nothing else. */
  function SaveSyncConfig(s: AppState, temp: SyncConfig): (r: AppState)
    ensures r == s.(syncConfig := r.syncConfig)
    ensures r.syncConfig == Some(temp)
  {
    s.(syncConfig := Some(temp))
  }

  /** Saving the settings as first shown changes nothing when settings were saved
      before; and after saving, every later save pushes exactly when the saved
      settings are switched on and complete. */
  lemma SaveSyncConfigEffects(s: AppState, temp: SyncConfig, serialize: AppState -> string)
    ensures s.syncConfig.Some? ==> SaveSyncConfig(s, TempConfigOf(s)) == s
    ensures SaveData(SaveSyncConfig(s, temp), true, serialize).pushStarted
      <==> temp.enabled && temp.supabaseUrl != "" && temp.supabaseKey != ""
  {
  }

  /** `handleReset()`: when confirmed, the state becomes that of a fresh
      installation; otherwise nothing changes. */
  function Reset(s: AppState, confirm: bool): (r: AppState)
    ensures confirm ==> IsEmptyAndOffline(r) && r.syncConfig.value.lastSync.None?
    ensures !confirm ==> r == s
  {
    if confirm then InitialData else s
  }

  /** A reset is the initial state exactly, and a reset state, once saved and loaded
      again, is still empty and starts no push. */
  lemma ResetIsInitial(s: AppState, serialize: AppState -> string, parse: string -> Option<AppState>)
    requires serialize(InitialData) != "" && parse(serialize(InitialData)) == Some(InitialData)
    ensures Reset(s, true) == InitialData
    ensures !SaveData(Reset(s, true), true, serialize).pushStarted
    ensures IsEmptyAndOffline(LoadData(true, SaveData(Reset(s, true), true, serialize).document, parse))
  {
    LoadAfterSave(InitialData, serialize, parse);
  }
}
