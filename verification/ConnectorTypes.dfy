/**
 The records of the connectors control plane. A timestamp is the millisecond value of the ISO text
 the runtime stores, so text order and `Date.parse` order are integer order. Fields that no
 operation of the store looks at are kept together in `body`.
 */
module ConnectorTypes {
  import opened Wrappers
  import opened PairKeys

  type Millis = int

  datatype SyncStatus = Queued | Running | Success | Failed | Canceled

  datatype SyncRun = SyncRun(
    id: string,
    organizationId: string,
    connectionId: string,
    triggerType: string,
    status: SyncStatus,
    recordsFetched: int,
    recordsWritten: int,
    errorClass: Option<string>,
    errorMessage: Option<string>,
    startedAt: Option<Millis>,
    endedAt: Option<Millis>,
    idempotencyKey: string,
    sourceWindowStart: Option<Millis>,
    sourceWindowEnd: Option<Millis>,
    forceFullSync: bool,
    availableAt: Millis,
    attempts: int,
    maxAttempts: int,
    priority: int,
    lockedBy: Option<string>,
    leaseExpiresAt: Option<Millis>,
    createdAt: Millis)

  /** An optional, nullable property of a patch. */
  datatype Field<T> = Undefined | Null | Of(value: T) {
    /** `patch.x ?? previous`: null and undefined both keep the previous value. */
    function OrKeep(previous: Option<T>): Option<T> {
      if Of? then Some(value) else previous
    }

    /** `patch.x !== undefined ? patch.x : previous`: null clears. */
    function OrClear(previous: Option<T>): Option<T> {
      match this
      case Undefined => previous
      case Null => None
      case Of(v) => Some(v)
    }
  }

  datatype RunUpdate = RunUpdate(
    status: SyncStatus,
    recordsFetched: Option<int>,
    recordsWritten: Option<int>,
    errorClass: Field<string>,
    errorMessage: Field<string>,
    startedAt: Field<Millis>,
    endedAt: Field<Millis>,
    availableAt: Option<Millis>,
    attempts: Option<int>,
    maxAttempts: Option<int>,
    priority: Option<int>,
    lockedBy: Field<string>,
    leaseExpiresAt: Field<Millis>)

  datatype ProcessingStatus = Pending | Processing | Processed | ProcessingFailed

  datatype RawEvent = RawEvent(
    id: string,
    organizationId: string,
    connectionId: string,
    eventId: string,
    receivedAt: Millis,
    processingStatus: ProcessingStatus,
    claimedAt: Option<Millis>,
    claimedBy: Option<string>,
    processedAt: Option<Millis>,
    errorMessage: Option<string>,
    body: map<string, string>)

  datatype SyncState = SyncState(
    organizationId: string,
    connectionId: string,
    sourceObject: string,
    watermarkText: Option<string>,
    watermarkAt: Option<Millis>,
    cursorJson: map<string, string>,
    lastRunId: Option<string>,
    updatedByWorker: Option<string>,
    createdAt: Millis,
    updatedAt: Millis)

  datatype SyncStateUpdate = SyncStateUpdate(
    watermarkText: Field<string>,
    watermarkAt: Field<Millis>,
    cursorJson: Option<map<string, string>>,
    lastRunId: Field<string>,
    updatedByWorker: Field<string>)

  /** What a connection says besides its identity and its times; updates change nothing else. */
  datatype ConnectionDetails = ConnectionDetails(
    vendor: string,
    displayName: string,
    status: string,
    authorizationState: string,
    runtimeEnvironment: string,
    authMode: string,
    config: map<string, string>,
    secretRef: Option<string>,
    secretVersion: Option<int>,
    sourceObjects: seq<string>,
    syncIntervalMinutes: int,
    webhookEnabled: bool,
    baseUrl: Option<string>,
    externalAccountId: Option<string>,
    oauthScopes: Option<seq<string>>,
    lastTestedAt: Option<Millis>,
    lastSuccessfulSyncAt: Option<Millis>,
    nextScheduledSyncAt: Option<Millis>,
    disabledReason: Option<string>)

  datatype Connection = Connection(id: string, organizationId: string, createdAt: Millis, updatedAt: Millis, details: ConnectionDetails)

  /** Optional properties that may be null are `None` in both cases: creation treats them alike. */
  datatype ConnectionInput = ConnectionInput(
    vendor: string,
    displayName: string,
    authMode: string,
    runtimeEnvironment: Option<string>,
    config: Option<map<string, string>>,
    secretRef: Option<string>,
    sourceObjects: Option<seq<string>>,
    syncIntervalMinutes: Option<int>,
    webhookEnabled: Option<bool>,
    baseUrl: Option<string>,
    externalAccountId: Option<string>,
    oauthScopes: Option<seq<string>>)

  /** What the catalog says of a vendor. */
  datatype CatalogEntry = CatalogEntry(sourceObjects: seq<string>, recommendedSyncMinutes: int)

  type Catalog = map<string, CatalogEntry>

  datatype CredentialDetails = CredentialDetails(
    title: string,
    keyId: string,
    authMode: string,
    secretRef: string,
    secretVersion: int,
    tokenPreview: string,
    allowedSourceObjects: Option<seq<string>>,
    allowedIpAddresses: Option<seq<string>>,
    expiresAt: Option<Millis>,
    lastUsedAt: Option<Millis>,
    revokedAt: Option<Millis>)

  datatype IngestCredential = IngestCredential(
    id: string, organizationId: string, connectionId: string, createdAt: Millis, updatedAt: Millis, details: CredentialDetails)

  datatype CredentialInput = CredentialInput(
    title: string,
    keyId: string,
    authMode: string,
    secretRef: string,
    secretVersion: int,
    tokenPreview: string,
    allowedSourceObjects: Option<seq<string>>,
    allowedIpAddresses: Option<seq<string>>,
    expiresAt: Option<Millis>)

  datatype AuthorizationSession = AuthorizationSession(connectionId: string, organizationId: string, body: map<string, string>)

  datatype AuditEvent = AuditEvent(id: string, organizationId: string, connectionId: Option<string>, createdAt: Millis, body: map<string, string>)

  datatype SecretRecord = SecretRecord(secretRef: string, organizationId: string, connectionId: string, body: map<string, string>)

  /** The text both idempotency indexes are keyed by, before it is hashed. */
  function KeyMaterial(organizationId: string, connectionId: string, trigger: string, material: string): string {
    organizationId + "|" + connectionId + "|" + trigger + "|" + material
  }

  function SyncStateKey(connectionId: string, sourceObject: string): string {
    Pair(connectionId, sourceObject)
  }

  function RunKey(run: SyncRun): string {
    KeyMaterial(run.organizationId, run.connectionId, run.triggerType, run.idempotencyKey)
  }

  function RawEventKey(event: RawEvent): string {
    KeyMaterial(event.organizationId, event.connectionId, "raw_event", event.eventId)
  }
}
