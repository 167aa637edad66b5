/** The application's records. The record declarations (types.ts) are not part of
    this model: each field below is one the modelled handlers read or write, under
    the name they use. */
module Domain {
  import opened Wrappers

  /** A quote's status, a closed set (the status selector's four options). */
  datatype Status = Draft | Sent | Approved | Rejected

  /** The three services a quote can cover ('Venta', 'Mantenimiento', 'Instalación'). */
  datatype ServiceType = Venta | Mantenimiento | Instalacion

  datatype Client = Client(
    id: string,
    name: string,
    nit: string,
    address: string,
    phone: string,
    email: string,
    contactPerson: Option<string>)

  datatype Technician = Technician(
    id: string,
    name: string,
    specialty: string,
    phone: string,
    email: string)

  /** One line of a quote. Quantities and prices are JavaScript numbers, modelled
      as exact reals. */
  datatype QuoteItem = QuoteItem(
    id: string,
    description: string,
    quantity: real,
    unitPrice: real)

  /** A quote; its four money fields are computed once, when it is saved. */
  datatype Quote = Quote(
    id: string,
    clientId: string,
    date: string,
    serviceTypes: seq<ServiceType>,
    items: seq<QuoteItem>,
    laborCost: real,
    subtotalItems: real,
    subtotalGeneral: real,
    iva: real,
    total: real,
    status: Status,
    observations: string,
    commercialConditions: string)

  /** A scheduled visit; reports copy its client. */
  datatype Visit = Visit(id: string, clientId: string, date: string)

  /** A maintenance alert; no modelled handler looks inside one. */
  datatype MaintenanceAlert = MaintenanceAlert(id: string)

  datatype ExecutionReport = ExecutionReport(
    id: string,
    visitId: string,
    clientId: string,
    quoteId: Option<string>,
    date: string,
    activities: string,
    equipmentIntervened: string,
    observations: string,
    warrantyMonths: int)

  /** The remote-backend settings; `lastSync` is an ISO timestamp once a push completes. */
  datatype SyncConfig = SyncConfig(
    enabled: bool,
    supabaseUrl: string,
    supabaseKey: string,
    lastSync: Option<string>)

  /** The whole local dataset. `syncConfig` may be missing from stored or imported
      data, which every reader of it allows for. */
  datatype AppState = AppState(
    clients: seq<Client>,
    technicians: seq<Technician>,
    quotes: seq<Quote>,
    visits: seq<Visit>,
    reports: seq<ExecutionReport>,
    maintenance: seq<MaintenanceAlert>,
    syncConfig: Option<SyncConfig>)
}
