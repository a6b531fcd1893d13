/** The program's entities. */
module Domain {
  import opened Wrappers

  datatype CertificateStatus = Pending | Active | Warning | Expired | Failed

  /** The columns a certificate form edits. */
  datatype Profile = Profile(
    name: string, primaryDomain: string, domains: seq<string>, email: string, snis: seq<string>,
    autoRenew: bool, renewBeforeDays: int)

  /** A certificate as the use cases see it; `expiresAt` is an instant. */
  datatype Certificate = Certificate(
    id: nat, profile: Profile, certPath: string, keyPath: string, expiresAt: Option<int>, status: CertificateStatus)

  datatype JobType = Issue | Renew | Sync | TestKong | Delete

  datatype JobStatus = Running | Success | Failure

  datatype SyncStatus = SyncPending | Synced | SyncFailed | NotSynced
}
