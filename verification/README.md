# certman-operator, modelled and proved in Dafny

certman-operator is a pair of level-triggered reconcilers over one object store. The ClusterDeployment
controller adds a finalizer, then creates, updates and deletes CertificateRequests, and on deletion deletes
them before it lets the deployment go. The CertificateRequest controller adds a finalizer, obtains or renews a
certificate from an ACME certificate authority (RFC 8555) by publishing dns-01 answers, and on deletion revokes
before it releases. This project models that logic and proves what it guarantees: over every interleaving of
both controllers with users, failures and restarts; over every reply sequence of one reconcile; and for the
code of each operation.

`dafny verify dfyconfig.toml` checks everything.

## How the model is built

- **The store** (`Kube`, `ApiServer`). Objects with resource versions, finalizers and deletion marks. A delete
  only marks while finalizers remain; a terminating object gains no finalizer; updates carry a version, finalizer
  patches replace the list. Any call may fail, before or after it took effect. Reads are linearizable.
- **The controllers twice.** As threads (`CDProtocol`, `CRProtocol`): where a reconcile stands between two calls,
  which call is pending, where each reply leads. And as the code it is (`ClusterDeployment`,
  `CertificateRequest`): classes with the original's methods, loops and early returns. Every call of the code
  goes through one method whose precondition is that it is the thread's pending call, so what is proved of the
  threads is proved of the code.
- **Runs** (`Protocol`, `Runs`, `RenewalRuns`). Both kinds of threads, one per key, with users, the clock and
  operator restarts as one state machine; an inductive invariant; theorems over all its runs. Assumed of users:
  one ClusterDeployment per namespace, only the operator creates CertificateRequests, nobody else edits the
  certman finalizer.
- **One reconcile** (`CRTraces`, `CRProgress`, `Conditions`). Statements over arbitrary reply sequences, that is
  over arbitrary concurrent writers and failures: `CRTraces` says that a call is made only for a reason,
  `CRProgress` that with the reason it is made.
- **Issuance** (`Acme`, `Issuance`). The CA as an object that follows sections 7.1.3, 7.1.4, 7.4, 7.5.1 and 8.4 of
  RFC 8555, with every free choice an arbitrary function and any call allowed to go unanswered; the stateful
  client; IssueCertificate with its trace of events.
- **DNS** (`Route53`, `CloudDns`, `AzureDns`, `ChallengeNames`, `Paging`, `AnswerThenVerify`). Zones as maps of
  record sets, the three operations as methods proved against functions on zones, and the round trip of
  validate, answer and clean up.
- **Time** (`Propagation`, `Renewal`). The DNS check with its negative-cache waits (section 5 of RFC 2308), the
  truncated days of ShouldReissue and the rounded days of the gauge, in integer nanoseconds with 64-bit
  saturation and wrap-around written out.

Go panics are modelled as an outcome of their own; a panic ends a reconcile like an error.

## Where the code differs from its documentation

The model follows the code.

- The propagation loop makes 9 attempts, not the 10 of `controllers/certificaterequest/constants.go:26` or the 5
  of `README.md:74`.
- The ClusterDeployment status patch compares an object with its own fresh copy and never fires
  (`controllers/clusterdeployment/clusterdeployment_controller.go:292-300`).
- A failed initial count is not retried, although the comment says so (`pkg/localmetrics/localmetrics.go:117-136`).
- AWS cleanup looks at the first page of zones only (`pkg/clients/aws/route53.go:258`), and compares names as
  spelled, so it misses names with upper-case letters or a trailing dot.
- GCP cleanup says "begin with" but deletes every TXT set whose name contains a prefix, those of other
  CertificateRequests included (`pkg/clients/gcp/dns.go:123-146`).
- The relocation status text is sent with a plain update, which does not write status
  (`controllers/certificaterequest/certificaterequest_controller.go:218-219`).
- revokeCertificateAndDeleteSecret deletes no secret.
- An Azure DNS zone is never found for a challenge, so nothing is ever issued there; the zone's own name would be
  answered under a name with an empty label, and a zone spelled in another case than Azure's is not cleaned up.
- Two bundles whose names differ only in case make one CertificateRequest, which every sync rewrites if they differ
  in secret or domains.
- A sync resets ReissueBeforeDays to zero, since the wanted spec never sets it.
- Panics: a relocation annotation without a slash, PEM data without a block, a chain of fewer than two
  certificates, a request without DNS names.

## Model

| member | source | states |
|---|---|---|
| `Runs.NoOrphans` | controllers/clusterdeployment/clusterdeployment_controller.go:130-163 | In every state of every interleaved run, once no ClusterDeployment is left in a namespace, every CertificateRequest there is terminating. |
| `Runs.ReleaseInRuns` | controllers/certificaterequest/certificaterequest_controller.go:328-349 | In every run the certman finalizer leaves a CertificateRequest only in a step of its own reconcile, which earlier found the named secret absent, or read from it a Let's Encrypt certificate that is by then in the CA's revoked set. |
| `Runs.ReleaseIsOwnStep` | controllers/certificaterequest/certificaterequest_controller.go:336-342 | No other step, of either controller or of anyone else, takes the finalizer away. |
| `Runs.SeenInRuns` | controllers/certificaterequest/certificaterequest_controller.go:401-422 | What a finalizing reconcile claims to have read was in the store at a step of that same reconcile. |
| `Runs.GaugeInRuns` | pkg/localmetrics/localmetrics.go:171-179 | In every state the gauge is the number of objects with the finalizer, plus additions under way, plus additions that took no effect, plus removals whose reply was lost, minus finalizations of objects without the finalizer, plus the initial error. |
| `Runs.GaugeAtBoundary` | controllers/certificaterequest/certificaterequest_controller.go:136-146 | The same between reconciles after a successful initial listing. |
| `Runs.RelocatingRests` | controllers/certificaterequest/certificaterequest_controller.go:204-225 | While a ClusterDeployment relocates, its thread never gets past its first read and threads of its CertificateRequests never past the relocation check, unless they finalize. |
| `Runs.RelocationInRuns` | controllers/clusterdeployment/clusterdeployment_controller.go:121-128 | While a ClusterDeployment relocates, its reconciler changes nothing in the store and no non-finalizing reconcile of its CertificateRequests orders, writes a secret or touches DNS. |
| `RenewalRuns.RenewalRests` | controllers/certificaterequest/certificaterequest_controller.go:248-293 | From any idle moment on, as long as the spec stands, nobody else touches the secret and the clock is at or before notAfter-(n+1) days, no reconcile orders again and the secret stays as it is, through restarts and failures. |
| `RenewalRuns.KeepingStep` | controllers/certificaterequest/renew_certificate.go:60-78 | One step of such a reconcile neither decides to issue nor writes a secret. |
| `Protocol.NextKeepsInv` | controllers/clusterdeployment/clusterdeployment_controller.go:66-168 | The invariant behind all run theorems (a live CertificateRequest is guarded by a deployment with the finalizer; what each thread knows; the gauge equation) is kept by every move. |
| `Protocol.CDStepKeepsInv` | controllers/clusterdeployment/clusterdeployment_controller.go:172-290 | It is kept by every call of the ClusterDeployment controller, answered, refused, failed or lost. |
| `Protocol.CRStepKeepsInv` | controllers/certificaterequest/certificaterequest_controller.go:108-300 | It is kept by every call of the CertificateRequest controller. |
| `Protocol.CRGaugeMoves` | controllers/certificaterequest/certificaterequest_controller.go:136-142 | The gauge equation survives each step, including patches that fail after the increment. |
| `Protocol.UserStepKeepsInv` | controllers/clusterdeployment/clusterdeployment_controller.go:130-131 | It is kept by every write of others that leaves the certman finalizer and deletion marks alone. |
| `Kube.ApplyKeepsSettled` | controllers/certificaterequest/certificaterequest_controller.go:339-342 | No call leaves a terminating object without finalizers in the store. |
| `Kube.RelocationExactly` | controllers/certificaterequest/certificaterequest_controller.go:434-440 | Outgoing exactly if the second slash-separated field is "outgoing"; without a slash the code panics; without the annotation the deployment stays. |
| `CDProtocol.AdvancePhases` | controllers/clusterdeployment/clusterdeployment_controller.go:130-163 | Sync is entered only behind the finalizer, and finalization never turns into sync. |
| `CDProtocol.AdvanceProper` | controllers/clusterdeployment/clusterdeployment_controller.go:183-207 | What a sync is about to write stays in the deployment's namespace and never lacks DNS names. |
| `CRTraces.AtMostOneOrder` | controllers/certificaterequest/certificaterequest_controller.go:274-275 | For every reply sequence, a reconcile asks for at most one certificate. |
| `CRTraces.ReconcileEnds` | controllers/certificaterequest/certificaterequest_controller.go:78-300 | Every reconcile is over after at most 15 calls. |
| `CRTraces.OrderHasReason` | controllers/certificaterequest/certificaterequest_controller.go:227-293 | It asks for one only after it read the object as not terminating and then the named secret as absent or due. |
| `CRTraces.DueIsReissue` | controllers/certificaterequest/renew_certificate.go:33-78 | ShouldReissue says yes if and only if "due" holds: no certificate data, less than n+1 days left, or a missing name, n being the configured days or 45 without any; for all secrets and clocks, as long as n+1 days fit a duration. |
| `CRTraces.FreshSecretIsQuiet` | controllers/certificaterequest/certificaterequest_controller.go:250-255 | While every read of the secret shows a covering certificate at least n+1 days from its end, a reconcile orders nothing. |
| `CRTraces.RelocatingRequestRests` | controllers/certificaterequest/certificaterequest_controller.go:204-225 | For every reply sequence in which the deployment reads as relocating, a live reconcile makes no call that acts outside. |
| `CRTraces.ReleaseIsJustified` | controllers/certificaterequest/certificaterequest_controller.go:401-422 | A reconcile asks for the finalizer's removal only after it itself read the secret as absent, or had the very Let's Encrypt certificate it read revoked. |
| `CRProgress.DueIsOrdered` | controllers/certificaterequest/certificaterequest_controller.go:250-275 | For every reply sequence: when the named secret is read twice in a row, the second time without data or with a certificate that is due, and the deployment is then read as staying, the next call orders a certificate for the spec as last read. |
| `CRProgress.NotDueIsKept` | controllers/certificaterequest/certificaterequest_controller.go:250-299 | When it is read as fresh instead, the next call reads it for the status, and orders nothing. |
| `CRProgress.AbsentIsOrdered` | controllers/certificaterequest/certificaterequest_controller.go:229-242 | A live reconcile reads the named secret once the ACME client is built, and orders if there is none. |
| `CRProgress.IssuedIsStored` | controllers/certificaterequest/certificaterequest_controller.go:281-284 | What was issued goes into a new secret if none was found, else into the one found, at the version it was first read at. |
| `CRProgress.StoredIsReadBack` | controllers/certificaterequest/certificaterequest_controller.go:374-391 | A secret that has appeared meanwhile is overwritten, and what is stored is read back for the status. |
| `CRProgress.RefusalIsRecorded` | controllers/certificaterequest/certificaterequest_controller.go:361-369 | A failed first issuance is written to the status as an error, a failed renewal ends the reconcile. |
| `CRProgress.FinalizerComesFirst` | controllers/certificaterequest/certificaterequest_controller.go:136-146 | A live object without the finalizer gets it before any other call; with it the owner comes next. |
| `CRProgress.OwnerByReference` | controllers/certificaterequest/certificaterequest_controller.go:148-176 | The owner reference decides which deployment is read, in the object's namespace; without one the deployments are listed. |
| `CRProgress.OwnerIsLookedUp` | controllers/certificaterequest/certificaterequest_controller.go:157-176 | The first deployment listed, in any namespace, gives the name that is then read; none ends the reconcile. |
| `CRProgress.NoOwnerStops` | controllers/certificaterequest/certificaterequest_controller.go:177-182 | A deployment that is not there the first time ends the reconcile. |
| `CRProgress.OrphanIsAdopted` | controllers/certificaterequest/certificaterequest_controller.go:184-202 | An owner is only written after the deployment was read, and is that deployment. |
| `CRProgress.FoundIsAdopted` | controllers/certificaterequest/certificaterequest_controller.go:184-205 | The deployment found first becomes the owner of an object without owner references; with one the relocation check comes next. |
| `CRProgress.FirstCheckPasses` | controllers/certificaterequest/certificaterequest_controller.go:204-225 | At the first relocation check a missing or staying deployment lets the reconcile go on; an outgoing one is answered by a plain update with the relocation text. |
| `CRProgress.SecondCheckStops` | controllers/certificaterequest/certificaterequest_controller.go:257-272 | At the second one a missing or unreadable deployment ends the reconcile, and an outgoing one is answered as before. |
| `CRProgress.AbsentIsReleased` | controllers/certificaterequest/certificaterequest_controller.go:401-411 | A terminating object whose secret is absent is released with the next call; for one that is there the clients are built, and a failed read ends the reconcile. |
| `CRProgress.ClientsComeFirst` | controllers/certificaterequest/revoke_certificate.go:34-44 | Without the DNS client there is no ACME client, without that no secret is read; a client that cannot be built ends the reconcile. |
| `CRProgress.LetsEncryptIsRevoked` | controllers/certificaterequest/revoke_certificate.go:46-58 | While finalizing exactly a Let's Encrypt certificate is revoked; any other one ends the reconcile. |
| `CRProgress.RevokedIsReleased` | controllers/certificaterequest/revoke_certificate.go:55-68 | Once revoked, now or before, the DNS records are cleaned up and, whatever comes of that, the object is released. |
| `ClusterDeploymentController.ClusterDeploymentReconciler.Reconcile` | controllers/clusterdeployment/clusterdeployment_controller.go:66-168 | A run of the protocol thread from start to end; with a quiet store a deployment without the managed label, marked as fake, not installed or relocating changes nothing; a live one without error ends with, for each last bundle that asks, a stored CertificateRequest whose fields are the deployment's, and everything else terminating; a terminating one is let go only when all its CertificateRequests are terminating. An error means that some call went wrong or the relocation annotation is unreadable. |
| `ClusterDeploymentController.ClusterDeploymentReconciler.ReconcileTerminating` | controllers/clusterdeployment/clusterdeployment_controller.go:130-148 | The deletion branch: no live CertificateRequest left, the finalizer gone and every other one kept, or an error. |
| `ClusterDeploymentController.ClusterDeploymentReconciler.ReconcileLive` | controllers/clusterdeployment/clusterdeployment_controller.go:150-163 | The finalizer goes on before the sync, other finalizers stay, and the outcome of the sync depends on the spec only. |
| `ClusterDeploymentController.ClusterDeploymentReconciler.HandleDelete` | controllers/clusterdeployment/clusterdeployment_delete.go:29-49 | Without error every CertificateRequest of the namespace is terminating or gone and nothing else changed. |
| `ClusterDeploymentController.ClusterDeploymentReconciler.SyncCertificateRequests` | controllers/clusterdeployment/clusterdeployment_controller.go:172-303 | Success on a quiet store yields exactly the store of the reference sync; for any failure pattern a delete happens only after every wanted object was fetched and created or updated; on a synced namespace whose wanted entries agree nothing is created or updated. |
| `ClusterDeploymentController.ClusterDeploymentReconciler.CollectWanted` | controllers/clusterdeployment/clusterdeployment_controller.go:183-207 | The bundle loop computes the wanted list of the spec, or stops at a failed address lookup. |
| `ClusterDeploymentController.ClusterDeploymentReconciler.CollectOne` | controllers/clusterdeployment/clusterdeployment_controller.go:190-205 | One generating bundle: the address is read even when there are no domains, and an entry is added only when there are. |
| `ClusterDeploymentController.ClusterDeploymentReconciler.EnsureWanted` | controllers/clusterdeployment/clusterdeployment_controller.go:226-279 | Errors are gathered, not fatal; without one every wanted object was handled. |
| `ClusterDeploymentController.ClusterDeploymentReconciler.EnsureOne` | controllers/clusterdeployment/clusterdeployment_controller.go:228-275 | Create if absent, update if the spec differs, else leave alone; what is as wanted is not written. |
| `ClusterDeploymentController.ClusterDeploymentReconciler.FetchWanted` | controllers/clusterdeployment/clusterdeployment_controller.go:234-258 | The fetch decides between create, update, nothing and a gathered error. |
| `ClusterDeploymentController.ClusterDeploymentReconciler.WriteWanted` | controllers/clusterdeployment/clusterdeployment_controller.go:245-264 | An acknowledged create or update is in the store; any other reply is a gathered error. |
| `ClusterDeploymentController.ClusterDeploymentReconciler.DeleteExtra` | controllers/clusterdeployment/clusterdeployment_controller.go:283-290 | The marked objects are deleted in order, up to the first error. |
| `ClusterDeploymentController.ClusterDeploymentReconciler.Call` | controllers/clusterdeployment/clusterdeployment_controller.go:66-303 | The code makes only the call its protocol thread has pending, so the run theorems speak about this code. |
| `ClusterDeploymentController.FindExtra` | controllers/clusterdeployment/clusterdeployment_controller.go:211-223 | The nested loops mark exactly the listed names nobody wants. |
| `ClusterDeploymentController.LastBundleWins` | controllers/clusterdeployment/clusterdeployment_controller.go:183-207 | For every key the wanted spec is that of the last generating bundle with domains and that lower-cased name; names are never empty. |
| `ClusterDeploymentController.SyncedIsAsWanted` | controllers/clusterdeployment/clusterdeployment_controller.go:374-432 | A synced namespace in the deployment's own fields: for each bundle that asks and that no later one replaces, the stored domain, secret name, DNS names, address, URLs and platform, credentials and region each in their place; what no bundle asks for is terminating. |
| `ClusterDeploymentController.SyncOwned` | controllers/clusterdeployment/clusterdeployment_controller.go:236-247 | Every CertificateRequest a sync adds is owned by the deployment. |
| `ClusterDeploymentController.SyncReaches` | controllers/clusterdeployment/clusterdeployment_controller.go:209-290 | The reference sync leaves every wanted name with the last bundle's spec, everything else in the namespace terminating, other namespaces untouched. |
| `ClusterDeploymentController.SyncAgainIsIdle` | controllers/clusterdeployment/clusterdeployment_controller.go:257-273 | If entries of one key agree, a sync of a synced namespace is the identity on the store. |
| `ClusterDeploymentController.SecondSyncIsIdleIff` | controllers/clusterdeployment/clusterdeployment_controller.go:172-290 | After any sync the next one leaves the store as it is if and only if wanted entries of one key have one spec, for every wanted list and listing order. |
| `ClusterDeploymentController.EnsuringAgainIsIdleIff` | controllers/clusterdeployment/clusterdeployment_controller.go:226-275 | The same for the create/update loop alone. |
| `ClusterDeploymentController.RewritesOnClash` | controllers/clusterdeployment/clusterdeployment_controller.go:257-264 | Entries that disagree about a key make every pass write, from any store. |
| `ClusterDeploymentController.AgreeingBundles` | controllers/clusterdeployment/clusterdeployment_controller.go:374-395 | In the deployment's terms: generating bundles with domains whose names are equal up to case have the same secret and the same domains. |
| `ClusterDeploymentController.CaseClash` | controllers/clusterdeployment/clusterdeployment_controller.go:375-376 | A deployment with bundles A and a for which it fails. |
| `Desired.GetDomainsForCertBundle` | controllers/clusterdeployment/clusterdeployment_controller.go:324-370 | The loops compute the reference list of domains. |
| `Desired.DomainsExactly` | controllers/clusterdeployment/clusterdeployment_controller.go:324-370 | A name is requested exactly if it is a control-plane name of the default bundle, an additional domain of the bundle, or the starred form of one of its ingress domains; the first name is fixed too. |
| `Desired.IngressAreWildcards` | controllers/clusterdeployment/clusterdeployment_controller.go:355-367 | Ingress names are requested as they are if they start with "*.", else behind it, one per entry of the bundle. |
| `Desired.CreateCertificateRequest` | controllers/clusterdeployment/clusterdeployment_controller.go:374-432 | Field by field: lower-cased name, the one owner reference, base domain, secret name, DNS names, address, both URLs, and the platform that is assigned last, Azure over AWS over GCP, with credentials and region or resource group in their places. |
| `CertificateRequestController.CertificateRequestReconciler.Reconcile` | controllers/certificaterequest/certificaterequest_controller.go:78-300 | A run of the protocol thread; at most one ACME order, only for a reason it read. With a quiet store a live object whose certificate is missing or due, while no deployment relocates, ends with a chain the CA has delivered since in its secret, or an error; one that is neither orders nothing and keeps its secrets; a terminating object is released only with its secret absent or its certificate revoked. An error means that some reply went wrong. |
| `CertificateRequestController.CertificateRequestReconciler.ReconcileLive` | controllers/certificaterequest/certificaterequest_controller.go:136-300 | Finalizer, owner, relocation check, then issuing; with a quiet store a wanted certificate is delivered and stored or an error comes back. |
| `CertificateRequestController.CertificateRequestReconciler.AddFinalizer` | controllers/certificaterequest/certificaterequest_controller.go:136-146 | The gauge is raised before the patch, whether or not the patch succeeds, and other finalizers stay; an object that has the finalizer is left alone. |
| `CertificateRequestController.CertificateRequestReconciler.CheckAndCertify` | controllers/certificaterequest/certificaterequest_controller.go:204-300 | A missing deployment does not stop the reconcile at the first check, a relocating one does; every order has a reason. |
| `CertificateRequestController.CertificateRequestReconciler.ResolveOwner` | controllers/certificaterequest/certificaterequest_controller.go:148-202 | Follows owner reference, listing, fetch and owner patch to the relocation check, or ends with an error; an object without owners then has the deployment found, any other keeps its own. |
| `CertificateRequestController.CertificateRequestReconciler.OwnerOrFirst` | controllers/certificaterequest/certificaterequest_controller.go:157-175 | The owner's name if there is one; else the first ClusterDeployment listed, in any namespace, or an error. |
| `CertificateRequestController.CertificateRequestReconciler.FindOwnerName` | controllers/certificaterequest/certificaterequest_controller.go:150-156 | The loop finds the last owner reference of kind ClusterDeployment, by index, and nothing without one. |
| `CRProtocol.OwnerNameExactly` | controllers/certificaterequest/certificaterequest_controller.go:150-156 | The reference function by index: the last reference of that kind, else nothing. |
| `CertificateRequestController.CertificateRequestReconciler.RelocationBailOut` | controllers/certificaterequest/certificaterequest_controller.go:425-442 | Outgoing, staying, missing and unreadable deployments are told apart; a value without a slash is a panic. |
| `CertificateRequestController.CertificateRequestReconciler.MarkRelocating` | controllers/certificaterequest/certificaterequest_controller.go:215-225 | The relocation text is sent with a plain update and so never reaches the stored status. |
| `CertificateRequestController.CertificateRequestReconciler.Certify` | controllers/certificaterequest/certificaterequest_controller.go:227-299 | Issue when the secret is absent, else decide by ShouldReissue: with a quiet store a wanted certificate is delivered and stored, or an error comes back; one that is not wanted is not ordered. |
| `CertificateRequestController.CertificateRequestReconciler.CheckAndRenew` | controllers/certificaterequest/certificaterequest_controller.go:248-293 | The decision is taken on a second read of the secret; a due one is renewed or an error comes back, a fresh one is kept. |
| `CertificateRequestController.CertificateRequestReconciler.RenewOrKeep` | controllers/certificaterequest/certificaterequest_controller.go:257-299 | The second relocation check stands between the decision and the order; a decision to renew ends with the delivered chain stored unless something went wrong, the other one orders nothing and keeps the secrets. |
| `CertificateRequestController.CertificateRequestReconciler.CreateCertificateSecret` | controllers/certificaterequest/certificaterequest_controller.go:352-398 | All or nothing: a failed issuance leaves all secrets as they were; success means the secret reads back as the first certificate of the chain that was fetched last, the CA's answer to a request with the CertificateRequest's names, is stored with that request's key, and the stored status agrees with it. |
| `CertificateRequestController.CertificateRequestReconciler.StoreNew` | controllers/certificaterequest/certificaterequest_controller.go:374-387 | A secret that appeared meanwhile is overwritten; nothing else is written. |
| `CertificateRequestController.CertificateRequestReconciler.Renew` | controllers/certificaterequest/certificaterequest_controller.go:274-293 | The renewed secret reads back as the first certificate of the fetched chain, with the key of the request; a secret that changed since it was read is not overwritten. |
| `CertificateRequestController.CertificateRequestReconciler.StoreRenewed` | controllers/certificaterequest/certificaterequest_controller.go:281-284 | The update carries the version that was read and is without effect on another one. |
| `CertificateRequestController.CertificateRequestReconciler.Issue` | controllers/certificaterequest/certificaterequest_controller.go:361-369 | Each outcome of IssueCertificate takes the thread where the code goes; success carries the delivered chain and its key. |
| `CertificateRequestController.CertificateRequestReconciler.UpdateStatus` | controllers/certificaterequest/update_status.go:32-68 | Success means every recorded status field agrees with the certificate in the secret, the text is "Success" if anything changed, and conditions stay; when the fields already agree nothing is written. |
| `CertificateRequestController.CertificateRequestReconciler.AcmeError` | controllers/certificaterequest/update_status.go:72-91 | The scan yields a condition exactly if there is none of that type. |
| `CertificateRequestController.CertificateRequestReconciler.UpdateStatusError` | controllers/certificaterequest/update_status.go:93-123 | Writes the error status and leaves secrets alone. |
| `CertificateRequestController.CertificateRequestReconciler.FinalizeCertificateRequest` | controllers/certificaterequest/certificaterequest_controller.go:328-349 | Takes the finalizer off, and no other, only when the secret is absent or its certificate revoked; lowers the gauge even when the finalizer was absent. |
| `CertificateRequestController.CertificateRequestReconciler.RevokeCertificateAndDeleteSecret` | controllers/certificaterequest/certificaterequest_controller.go:401-422 | Success means the secret is absent or its Let's Encrypt certificate is revoked. |
| `CertificateRequestController.CertificateRequestReconciler.RevokeCertificate` | controllers/certificaterequest/revoke_certificate.go:32-68 | Revoked or already revoked, only for a Let's Encrypt certificate read from the secret; failed DNS cleanup does not matter. |
| `Conditions.AcmeErrorIsRecordedOnce` | controllers/certificaterequest/update_status.go:72-111 | However many issuances fail, the conditions gain at most one entry, the first error that mentions acme. |
| `Conditions.SuccessAfterErrors` | controllers/certificaterequest/update_status.go:46-57 | A success after errors makes the status agree with the certificate and keeps the conditions. |
| `Conditions.IssuedSecretIsKept` | controllers/certificaterequest/renew_certificate.go:46-78 | What an issuance stored reads back as its first certificate and is due for renewal exactly after notAfter-(n+1) days. |
| `LocalMetrics.Metrics.CheckInitCounter` | pkg/localmetrics/localmetrics.go:118-138 | The counting loop; a failed listing counts as zero and is never repeated. |
| `LocalMetrics.ListingStartsExact` | pkg/localmetrics/localmetrics.go:123-136 | After a successful listing, in any order, the gauge starts at the number of objects with the finalizer. |
| `LocalMetrics.FailedListingStartsOff` | pkg/localmetrics/localmetrics.go:125-127 | After a failed one it starts right if and only if no object carries the finalizer. |
| `GoStrings.ContainsString` | controllers/utils/stringutils.go:21-29 | Membership. |
| `GoStrings.RemoveString` | controllers/utils/stringutils.go:32-40 | All occurrences go, order and everything else stay. |
| `GoStrings.Without` | controllers/utils/stringutils.go:32-40 | The specification of RemoveString: never the removed string, every other member kept. |
| `GoStrings.ContainsExactly` | pkg/clients/gcp/dns.go:142 | strings.Contains holds exactly if the string splits around the substring. |
| `Issuance.Issuer.IssueCertificate` | controllers/certificaterequest/issue_certificate.go:51-223 | FinalizeOrder is requested only after each authorization of the order, in turn, was fetched, its own key authorization published and verified at its own FQDN and its challenge accepted, so that all are valid at a CA that follows RFC 8555; at most one order, and none before client, write test and account succeeded; on an error the secret is unchanged; on success the last three events are the request, the fetch and the cleanup, and the secret holds the first two certificates of that chain and the key of that request. It does succeed, for any number of authorizations, when every call is answered, a zone is listed, each authorization offers dns-01 and its record is published at the validation name and becomes visible, and the CA follows RFC 8555 with a chain of two; without a zone nothing is published and no order with authorizations completes. |
| `Issuance.Issuer.Prepare` | controllers/certificaterequest/issue_certificate.go:56-147 | The same up to the last accepted challenge, with the events left behind when it stops, and success when nothing is in the way. |
| `Issuance.Issuer.AuthorizeAll` | controllers/certificaterequest/issue_certificate.go:101-147 | The same for the loop over any number of authorizations. |
| `Issuance.Issuer.Authorize` | controllers/certificaterequest/issue_certificate.go:102-146 | One pass, with the events it leaves behind also when it stops half-way. It succeeds if and only if the fetch is answered, identifier and key authorization are not empty, publishing succeeds and the CA accepts the challenge with what is then published. |
| `Issuance.Issuer.Publish` | controllers/certificaterequest/issue_certificate.go:119-137 | Succeeds if and only if the listing yields a zone, the answering call is answered and, outside of test mode, the record at the client's FQDN becomes visible in time; then it was published there and verified. |
| `Issuance.Issuer.OpenOrder` | controllers/certificaterequest/issue_certificate.go:56-97 | Succeeds if and only if the client, the write test, its verdict, the account and the order request, in this sequence of calls, all succeed; the account is then that of the given address. |
| `Issuance.Issuer.Complete` | controllers/certificaterequest/issue_certificate.go:149-222 | Key and CSR for exactly the requested names, the first as common name, with the key just generated; success exactly if the request is answered and the order ready, the chain is fetched and it has two certificates; no names at all is a panic before any request. |
| `Issuance.Issuer.Obtain` | controllers/certificaterequest/issue_certificate.go:176-222 | One finalize request; an error exactly if no chain was fetched after it, and then the secret is unchanged; a panic exactly for a chain of fewer than two, which leaves the data alone; else the CA's chain for this CSR is stored and the challenge records are cleaned up. |
| `Issuance.FindZoneIDForChallenge` | controllers/certificaterequest/issue_certificate.go:225-259 | Which DNSZone statuses yield a zone id. |
| `Issuance.ZoneFoundIff` | controllers/certificaterequest/issue_certificate.go:239-258 | A zone is found exactly if one DNSZone is listed and AWS or GCP filled it in, and which zone that is. |
| `Issuance.AzureZonesAreNoZones` | controllers/certificaterequest/issue_certificate.go:243-258 | DNSZones that only Azure filled in never yield a zone, so IssueCertificate publishes nothing for them and completes no order with authorizations. |
| `Issuance.HostedZoneId` | controllers/certificaterequest/issue_certificate.go:244-247 | The id behind "/hostedzone/" comes out. |
| `Acme.LetsEncryptClient.CreateOrder` | pkg/leclient/lets_encrypt.go:84-95 | The client's order is the CA's answer for these names. |
| `Acme.LetsEncryptClient.FetchAuthorization` | pkg/leclient/lets_encrypt.go:111-114 | The client's authorization is the resource behind the URL. |
| `Acme.LetsEncryptClient.UpdateChallenge` | pkg/leclient/lets_encrypt.go:156-160 | Success makes the authorization that owns the challenge valid. |
| `Acme.LetsEncryptClient.FinalizeOrder` | pkg/leclient/lets_encrypt.go:164-167 | The request goes out for the current order; success makes a chain for this CSR available. |
| `Acme.LetsEncryptClient.FetchCertificates` | pkg/leclient/lets_encrypt.go:177-182 | The chain behind the current order, recorded as fetched. |
| `Certificates.IsCertificateIssuerLE` | pkg/leclient/utils.go:42-56 | The organization loop and the fake intermediate's common name. |
| `ChallengeNames.CleanupMeetsAnswer` | pkg/clients/aws/route53.go:281-288 | Cleanup's name is the answered name exactly for wildcards "*.rest" and names that start with neither star nor dot. |
| `ChallengeNames.AnswersWhereTheCALooks` | pkg/clients/aws/route53.go:83-90 | Route53 and Cloud DNS answer at "_acme-challenge." and the identifier, where section 8.4 of RFC 8555 makes the CA look. |
| `ChallengeNames.AzureCleanupMeetsAnswer` | pkg/clients/azure/dns.go:99-123 | On Azure cleanup of a well-formed name, wildcard or not, names the record answered for its identifier if and only if Azure and the CertificateRequest spell the zone alike, or neither spelling ends the identifier. |
| `ChallengeNames.AzureAnswersValidationName` | pkg/clients/azure/dns.go:68-110 | The returned FQDN is, up to case, where the CA looks exactly for identifiers strictly below the zone as Azure spells it; letter by letter, exactly if both spellings are the same. |
| `ChallengeNames.AzureApexIsMissed` | pkg/clients/azure/dns.go:68-82 | The zone's own name is answered under a name with an empty label. |
| `AnswerThenVerify.Route53AnswerIsConfirmed` | pkg/clients/aws/route53.go:83-116 | The record written for a challenge passes the propagation check once visible, exactly if the identifier is not absolute and the token has no outer quotes. |
| `AnswerThenVerify.CloudDnsAnswerIsConfirmed` | pkg/clients/gcp/dns.go:54-86 | The same for Cloud DNS. |
| `AnswerThenVerify.AzureAnswerIsConfirmed` | pkg/clients/azure/dns.go:92-110 | The Azure record passes the check under the returned FQDN exactly if the zone is spelled without a trailing dot and the token has no outer quotes. |
| `AnswerThenVerify.Route53AnswerPropagates` | controllers/certificaterequest/cloudflare.go:57-123 | Such a challenge is verified if its record becomes visible within nine attempts and nothing made the check give up before. |
| `Route53.Route53Client.AnswerDNSChallenge` | pkg/clients/aws/route53.go:83-116 | Exactly the challenge record set changes, or nothing. |
| `Route53.Route53Client.TestWriteAccess` | pkg/clients/aws/route53.go:198-237 | Success removes the test record again; at worst only that record is left. |
| `Route53.Route53Client.ValidateDNSWriteAccess` | pkg/clients/aws/route53.go:176-241 | Undisturbed it is the reference function of the zones; for any failures no record but the test records is touched. |
| `Route53.Route53Client.DeleteAcmeChallengeResourceRecords` | pkg/clients/aws/route53.go:246-343 | Undisturbed it is the reference cleanup of the first page; for any failures no record but the challenge records of the names is touched. |
| `Route53.Route53Client.CleanZone` | pkg/clients/aws/route53.go:281-338 | The loop over the names in one zone. |
| `Route53.Route53Client.CleanName` | pkg/clients/aws/route53.go:281-338 | One name: list, compare, delete. |
| `Route53.Route53Client.DeleteValues` | pkg/clients/aws/route53.go:305-336 | One delete per value with the fixed TTL; a refused delete ends cleanup quietly. |
| `Route53.ZoneLifecycle` | pkg/clients/aws/route53.go:83-343 | Validate, answer, clean up: the initial zone without the test record and the challenge records, nothing else moved. |
| `Route53.RecordsLifecycle` | pkg/clients/aws/route53.go:246-343 | The same over all zones, and if the zone is not on the first page every answered record stays behind. |
| `Route53.CleanupRemovesAnswerIff` | pkg/clients/aws/route53.go:281-302 | For one name, the exact condition under which cleanup takes back what was written. |
| `Route53.PageOutcome` | pkg/clients/aws/route53.go:258-275 | Cleanup reaches the one matching zone exactly if it is on the first page. |
| `Route53.SelectsExactly` | pkg/clients/aws/route53.go:183-196 | In the fields of the zone: not private, and its name is the requested domain up to case, which may leave out the last dot. |
| `Route53.RecordsExactly` | pkg/clients/aws/route53.go:83-116 | Name, TTL and quoted value of the challenge record, and the name of the test record. |
| `Route53.CleanedExactly` | pkg/clients/aws/route53.go:281-338 | For one name in terms of the stored sets: gone, kept because it is not seen, or kept because the delete is refused, with the exact conditions on spelling, TTL and values. |
| `Paging.ListAllHostedZones` | pkg/clients/aws/route53.go:647-668 | For every zone count and positive page size: terminates, returns every zone once in order, or fails with the first failing call. |
| `Paging.ListHostedZones` | pkg/clients/aws/mockroute53/mockroute53.go:28-86 | One page of the paging server. |
| `Paging.MarkerRoundTrip` | pkg/clients/aws/mockroute53/mockroute53.go:31-37 | A marker written by one page is read back as the same index by the next. |
| `Paging.ZonesDistinct` | pkg/clients/aws/mockroute53/mockroute53.go:54-71 | No zone of the complete list occurs twice. |
| `Paging.NoProgressWithoutPageSize` | pkg/clients/aws/mockroute53/mockroute53.go:39-86 | With a page size of zero or less the server answers every request with the same empty page. |
| `Paging.PageSizeExactly` | pkg/clients/aws/mockroute53/mockroute53.go:39-47 | A request without a page size is served a hundred zones, one that names a size that many. |
| `CloudDns.CloudDnsClient.UpsertDnsRecord` | pkg/clients/gcp/dns.go:212-248 | Exactly the given set stands at its name and type afterwards, or nothing changed; undisturbed it succeeds exactly if no older set is off the first page. |
| `CloudDns.CloudDnsClient.DeleteDnsRecords` | pkg/clients/gcp/dns.go:251-271 | All given sets go, or none. |
| `CloudDns.CloudDnsClient.GetManagedZone` | pkg/clients/gcp/dns.go:187-209 | The first public zone of that name. |
| `CloudDns.CloudDnsClient.AnswerDNSChallenge` | pkg/clients/gcp/dns.go:54-86 | Exactly the challenge record set changes, or nothing; undisturbed it succeeds exactly if a zone matches and no older set is off its first page. |
| `CloudDns.CloudDnsClient.ValidateDNSWriteAccess` | pkg/clients/gcp/dns.go:90-121 | Success removes its own record again; an error at worst leaves that record behind; undisturbed it succeeds exactly if a zone matches and no older set is off its first page. |
| `CloudDns.CloudDnsClient.DeleteAcmeChallengeResourceRecords` | pkg/clients/gcp/dns.go:124-159 | Over any page split: on success a record set is gone exactly if it is TXT and its name contains "_acme-challenge" or "_certman_access_test" anywhere, everything else stays; it succeeds exactly if the zone exists. |
| `CloudDns.CloudDnsClient.CollectPages` | pkg/clients/gcp/dns.go:138-150 | The page callbacks together select the same sets as one pass over the whole listing. |
| `CloudDns.CollectPage` | pkg/clients/gcp/dns.go:139-147 | The selection of one page: TXT sets whose name contains one of the two labels, in order. |
| `CloudDns.Older` | pkg/clients/gcp/dns.go:226-234 | The sets of the page an upsert replaces. |
| `CloudDns.OlderAccepted` | pkg/clients/gcp/dns.go:212-248 | Cloud DNS accepts the upsert exactly if the existing set was on the page. |
| `CloudDns.SelectedDeletes` | pkg/clients/gcp/dns.go:135-157 | The selected sets can be deleted together and are exactly the TXT sets of the zone whose name contains one of the two labels. |
| `CloudDns.OperatorTxtExactly` | pkg/clients/gcp/dns.go:139-146 | In characters: type TXT, and the name splits around one of the two labels. |
| `CloudDns.MatchesExactly` | pkg/clients/gcp/dns.go:187-209 | In the fields of the zone: public, and its DNS name is the requested domain up to case, which may leave out the last dot. |
| `CloudDns.RecordsExactly` | pkg/clients/gcp/dns.go:54-121 | Name, type, TTL and value of the two records the client writes. |
| `CloudDns.ZoneLifecycle` | pkg/clients/gcp/dns.go:54-159 | Validate, answer and clean up leave the initial zone without any operator record, including those of other CertificateRequests. |
| `AzureDns.AzureDnsClient.AnswerDNSChallenge` | pkg/clients/azure/dns.go:92-110 | Exactly the challenge record set changes, or nothing; the name it returns. |
| `AzureDns.AzureDnsClient.ValidateDNSWriteAccess` | pkg/clients/azure/dns.go:136-167 | Success removes the test record; private zones are refused untouched; at worst only the test record is left. |
| `AzureDns.AzureDnsClient.DeleteAcmeChallengeResourceRecords` | pkg/clients/azure/dns.go:112-132 | Success removes exactly the challenge records of the names; for any failures nothing else is touched. |
| `AzureDns.ZoneLifecycle` | pkg/clients/azure/dns.go:92-167 | Validate, answer and clean up leave the initial zone without test and challenge records, for two spellings of the zone that meet that condition for every name. |
| `AzureDns.CleanupRemovesAnswerIff` | pkg/clients/azure/dns.go:99-123 | For one name, cleanup takes back what was written if and only if the spellings meet the condition. |
| `AzureDns.SpellingMatters` | pkg/clients/azure/dns.go:99-120 | An input that misses: zone X.io, CertificateRequest x.io. |
| `AzureDns.AccessTestExactly` | pkg/clients/azure/dns.go:136-167 | The name of the test record, in characters. |
| `Propagation.VerifyDnsResourceRecordUpdate` | controllers/certificaterequest/cloudflare.go:57-123 | True exactly if some attempt among the first nine confirms and none before gave up; at most nine fetches, 18 requests and 30+8*600 seconds of sleep; before each fetch it waits 30 seconds, or the negative-cache time of the previous response if that is longer. |
| `Propagation.Inspect` | controllers/certificaterequest/cloudflare.go:85-119 | One pass: negative answers, empty answers, name and value comparison. |
| `Propagation.TryFetch` | controllers/certificaterequest/cloudflare.go:127-137 | The second endpoint only when the first failed. |
| `Propagation.NegativeCacheIsHonoured` | controllers/certificaterequest/cloudflare.go:66-81 | After a negative answer the next query waits longer than its TTL, exactly unless five more seconds overflow it. |
| `Propagation.NegativeWaitExactly` | controllers/certificaterequest/cloudflare.go:66-99 | In the fields of the response: status 3 with an authority section is negative, its wait is the TTL plus five, and above 600 the check gives up; with the wrap-around of that sum. |
| `Propagation.ConfirmsExactly` | controllers/certificaterequest/cloudflare.go:94-119 | In the fields of the response: not negative, and the first answer has the name up to case and a last dot and the value without outer quotes. |
| `Renewal.ShouldReissue` | controllers/certificaterequest/renew_certificate.go:31-82 | For a secret whose first block is certificate c: yes exactly if less than 46 days are left without a configured number, less than configured+1 days with one below the longest duration, or a requested name is missing; yes without data; errors and panics for unreadable data. |
| `Renewal.ReissueThreshold` | controllers/certificaterequest/renew_certificate.go:60-64 | "Less than n+1 days left" is what the test decides, for all instants, if and only if n+1 days fit a duration. |
| `Renewal.ReissueIsMonotone` | controllers/certificaterequest/renew_certificate.go:60-78 | Once due, always due as the clock advances. |
| `Renewal.FreshCertificateIsKept` | controllers/certificaterequest/renew_certificate.go:60-78 | A covering certificate is kept exactly up to notAfter-(n+1) days. |
| `Renewal.GaugeAgreesWithTest` | pkg/localmetrics/localmetrics.go:192-195 | Gauge m and test differ by at most one day, and at n+1 the time left decides. |
| `Renewal.GaugeBracketsTruncation` | pkg/localmetrics/localmetrics.go:192-195 | Until the certificate has expired the gauge shows the truncated days or one more, from then on zero. |

## Left out

- FedRAMP branches: single-zone variants of the same operations.
- HTTP and JSON of the DNS-over-HTTPS requests: responses are an arbitrary function of the attempt.
- Cryptography, X.509 and PEM bytes: certificates are records, PEM data is a list of blocks, keys are numbers.
- Floating-point rounding in `Hours()`: days are truncated and rounded from integer nanoseconds.
- Informer-cache staleness, work queues, rate limiting and leader election: reads are linearizable, reconciles of one key are serialised.
- Building cloud sessions, credentials and the ACME account key: each is one call that succeeds or fails.
- The reason of a failure: calls fail without a cause, except for the text that decides on the acme condition.
- Liveness under retries: within one reconcile the next call is proved, but not that a failing cloud or CA recovers, so nothing says when an object is issued for or released.
- The bundle status list of a ClusterDeployment: the code computes it and never stores it.
- The read of the secret for the validity gauge at the end of a live reconcile, and the labels of metrics: the arithmetic of that gauge is modelled, the extra read is not a step of the thread.
- The list call of CheckInitCounter: its outcome is a parameter, it is not a step of the thread.
- crt.sh queries, support-level, issuance and error counters: no logic beyond counting.
- The mock cloud platform and test clients other than the paging Route53 server.
- Unicode case folding, escaping of names by Route53 and limits on record sizes: names are ASCII and stored canonically.
- Hive's DNSZone objects beyond the status fields that FindZoneIDForChallenge reads.
- Issuance.Issuer.Publish: the cloud client is abstract there, one that publishes under a name it chooses; the three concrete clients are modelled beside it.
- AzureDns.ZoneLifecycle: zone names that start with a dot or a star are not covered, because no Azure zone has one.
- Paging.ListHostedZones: numbers beyond 64 bits and the overflow of start plus page size are not modelled, because integers are unbounded here.
- Runs.GaugeAtBoundary: counts a patch as failed when it took no effect, since one that took effect and lost its reply leaves the gauge right.
