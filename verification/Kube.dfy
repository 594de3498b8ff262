/** The objects both controllers share and what the API server, and the CA's revocation endpoint, do
    with one call. Reads are linearizable; any call may fail, before or after it took effect. */
module Kube {
  import opened GoStrings
  import opened Certificates

  const FINALIZER := "certificaterequests.certman.managed.openshift.io"
  const CLUSTER_DEPLOYMENT := "ClusterDeployment"
  const RELOCATION_OUTGOING := "outgoing"

  datatype Key = Key(ns: string, name: string)
  datatype Meta = Meta(rv: nat, finalizers: seq<string>, terminating: bool)
  datatype OwnerRef = OwnerRef(kind: string, name: string)

  datatype Platform = NoPlatform | GCP(credentials: string) | AWS(credentials: string, region: string) | Azure(credentials: string, resourceGroup: string)

  datatype CRSpec = CRSpec(
    acmeDnsDomain: string,
    secretName: string,
    platform: Platform,
    dnsNames: seq<string>,
    email: string,
    reissueBeforeDays: int,
    apiURL: string,
    webConsoleURL: string)

  datatype Condition = Condition(ctype: string, status: string, message: string)

  datatype CRStatus = CRStatus(
    issued: bool,
    status: string,
    issuerName: string,
    notBefore: Option<int>,
    notAfter: Option<int>,
    serialNumber: Option<nat>,
    conditions: seq<Condition>)

  const NEW_STATUS := CRStatus(false, "", "", None, None, None, [])

  datatype CR = CR(meta: Meta, owners: seq<OwnerRef>, spec: CRSpec, status: CRStatus)

  datatype Bundle = Bundle(name: string, secretName: string, generate: bool)
  datatype AdditionalCert = AdditionalCert(name: string, domain: string)
  datatype Ingress = Ingress(domain: string, servingCertificate: string)

  datatype CDSpec = CDSpec(
    clusterName: string,
    baseDomain: string,
    defaultCertificate: string,
    additional: seq<AdditionalCert>,
    ingress: seq<Ingress>,
    bundles: seq<Bundle>,
    gcp: Option<string>,
    aws: Option<(string, string)>,
    azure: Option<(string, string)>,
    apiURL: string,
    webConsoleURL: string)

  datatype CD = CD(
    meta: Meta,
    managed: Option<string>,
    fake: Option<string>,
    relocate: Option<string>,
    installed: bool,
    spec: CDSpec)

  /** What the relocation annotation says; a value without "/" makes the Go code panic. */
  datatype Relocation = Staying | Outgoing | Malformed

  function RelocationOf(cd: CD): Relocation {
    if cd.relocate == None then Staying
    else
      match SecondField(cd.relocate.value)
      case None => Malformed
      case Some(f) => if f == RELOCATION_OUTGOING then Outgoing else Staying
  }

  /** The annotation relocates a deployment away exactly if its second field, between the first slash and the
      next or the end, is "outgoing". */
  lemma RelocationExactly(cd: CD, first: string, second: string, rest: string)
    requires '/' !in first && '/' !in second
    ensures cd.relocate == None ==> RelocationOf(cd) == Staying
    ensures cd.relocate == Some(first) ==> RelocationOf(cd) == Malformed
    ensures cd.relocate == Some(first + "/" + second) || cd.relocate == Some(first + "/" + second + "/" + rest) ==>
              RelocationOf(cd) == if second == "outgoing" then Outgoing else Staying
  {
    SecondFieldExactly(first, second, rest);
  }

  datatype Store = Store(
    cds: map<Key, CD>,
    crs: map<Key, CR>,
    secrets: map<Key, Secret>,
    revoked: set<Certificate>,
    email: string,
    rv: nat,
    now: int)

  datatype Call =
    | GetCD(key: Key)
    | GetCR(key: Key)
    | GetSecret(key: Key)
    | ListCRs(ns: string)
    | ListCDs
    | PatchCDFinalizers(key: Key, finalizers: seq<string>)
    | PatchCRFinalizers(key: Key, finalizers: seq<string>)
    | PatchCROwners(key: Key, owners: seq<OwnerRef>)
    | CreateCR(key: Key, owners: seq<OwnerRef>, spec: CRSpec)
    | UpdateCR(key: Key, copy: CR)
    | UpdateCRStatus(key: Key, copy: CR)
    | DeleteCR(key: Key)
    | CreateSecret(key: Key, secret: Secret)
    | UpdateSecret(key: Key, secret: Secret, precondition: Option<nat>)
    | ReadEmail
    | BuildDnsClient
    | BuildAcmeClient
    | IssueCertificate(spec: CRSpec)
    | Revoke(certificate: Certificate)
    | CleanUpDns

  datatype Reply =
    | Failed
    | NotFound
    | AlreadyExists
    | Refused
    | Done
    | AlreadyRevoked
    | GotCD(cd: CD)
    | GotCR(cr: CR)
    | GotSecret(secret: Secret, now: int)
    | Keys(keys: seq<Key>)
    | Email(address: string)
    | Issued(secret: Secret)

  /** A terminating object may keep or lose finalizers, never gain one. */
  predicate FinalizersAllowed(meta: Meta, finalizers: seq<string>) {
    meta.terminating ==> forall f :: f in finalizers ==> f in meta.finalizers
  }

  /** A terminating object goes away with its last finalizer. */
  predicate Gone(meta: Meta) {
    meta.terminating && meta.finalizers == []
  }

  function PutCR(s: Store, k: Key, cr: CR): Store {
    if Gone(cr.meta) then s.(crs := s.crs - {k}, rv := s.rv + 1)
    else s.(crs := s.crs[k := cr.(meta := cr.meta.(rv := s.rv + 1))], rv := s.rv + 1)
  }

  function PutCD(s: Store, k: Key, cd: CD): Store {
    if Gone(cd.meta) then s.(cds := s.cds - {k}, rv := s.rv + 1)
    else s.(cds := s.cds[k := cd.(meta := cd.meta.(rv := s.rv + 1))], rv := s.rv + 1)
  }

  /** Updates carry the resource version they were read at and are refused on a newer object. */
  predicate UpdateAllowed(s: Store, k: Key, copy: CR) {
    && k in s.crs
    && s.crs[k].meta.rv == copy.meta.rv
    && FinalizersAllowed(s.crs[k].meta, copy.meta.finalizers)
  }

  /** The effect of a call the server carries out; a refused one has none. A finalizer patch is a
      merge patch: it replaces the whole list by the one the client computed. */
  function Apply(s: Store, c: Call): Store {
    match c
    case PatchCDFinalizers(k, fs) =>
      if k in s.cds && FinalizersAllowed(s.cds[k].meta, fs)
      then PutCD(s, k, s.cds[k].(meta := s.cds[k].meta.(finalizers := fs))) else s
    case PatchCRFinalizers(k, fs) =>
      if k in s.crs && FinalizersAllowed(s.crs[k].meta, fs)
      then PutCR(s, k, s.crs[k].(meta := s.crs[k].meta.(finalizers := fs))) else s
    case PatchCROwners(k, owners) =>
      if k in s.crs then PutCR(s, k, s.crs[k].(owners := owners)) else s
    case CreateCR(k, owners, spec) =>
      if k in s.crs then s else PutCR(s, k, CR(Meta(0, [], false), owners, spec, NEW_STATUS))
    case UpdateCR(k, copy) =>
      if UpdateAllowed(s, k, copy)
      then PutCR(s, k, CR(s.crs[k].meta.(finalizers := copy.meta.finalizers), copy.owners, copy.spec, s.crs[k].status)) else s
    case UpdateCRStatus(k, copy) =>
      if k in s.crs && s.crs[k].meta.rv == copy.meta.rv then PutCR(s, k, s.crs[k].(status := copy.status)) else s
    case DeleteCR(k) =>
      if k in s.crs && !s.crs[k].meta.terminating
      then PutCR(s, k, s.crs[k].(meta := s.crs[k].meta.(terminating := true))) else s
    case CreateSecret(k, secret) =>
      if k in s.secrets then s else s.(secrets := s.secrets[k := secret.(rv := s.rv + 1)], rv := s.rv + 1)
    case UpdateSecret(k, secret, pre) =>
      if SecretUpdateAllowed(s, k, pre)
      then s.(secrets := s.secrets[k := secret.(rv := s.rv + 1)], rv := s.rv + 1) else s
    case Revoke(c) => s.(revoked := s.revoked + {c})
    case _ => s
  }

  predicate SecretUpdateAllowed(s: Store, k: Key, pre: Option<nat>) {
    k in s.secrets && (pre.Some? ==> s.secrets[k].rv == pre.value)
  }

  /** The reply to a call that was answered; lists come in any order. */
  ghost predicate Answers(s: Store, c: Call, r: Reply) {
    match c
    case GetCD(k) => r == if k in s.cds then GotCD(s.cds[k]) else NotFound
    case GetCR(k) => r == if k in s.crs then GotCR(s.crs[k]) else NotFound
    case GetSecret(k) => r == if k in s.secrets then GotSecret(s.secrets[k], s.now) else NotFound
    case ListCRs(ns) => r.Keys? && forall k :: k in r.keys <==> k in s.crs && k.ns == ns
    case ListCDs => r.Keys? && forall k :: k in r.keys <==> k in s.cds
    case PatchCDFinalizers(k, fs) =>
      if k !in s.cds then r == NotFound
      else if !FinalizersAllowed(s.cds[k].meta, fs) then r == Refused
      else r == GotCD(s.cds[k].(meta := s.cds[k].meta.(finalizers := fs, rv := s.rv + 1)))
    case PatchCRFinalizers(k, fs) =>
      if k !in s.crs then r == NotFound
      else if !FinalizersAllowed(s.crs[k].meta, fs) then r == Refused
      else r == GotCR(s.crs[k].(meta := s.crs[k].meta.(finalizers := fs, rv := s.rv + 1)))
    case PatchCROwners(k, owners) =>
      if k !in s.crs then r == NotFound
      else r == GotCR(s.crs[k].(owners := owners, meta := s.crs[k].meta.(rv := s.rv + 1)))
    case CreateCR(k, _, _) => r == if k in s.crs then AlreadyExists else Done
    case UpdateCR(k, copy) => r == if k !in s.crs then NotFound else if UpdateAllowed(s, k, copy) then Done else Refused
    case UpdateCRStatus(k, copy) =>
      r == if k !in s.crs then NotFound else if s.crs[k].meta.rv == copy.meta.rv then Done else Refused
    case DeleteCR(k) => r == if k in s.crs then Done else NotFound
    case CreateSecret(k, _) => r == if k in s.secrets then AlreadyExists else Done
    case UpdateSecret(k, _, pre) => r == if k !in s.secrets then NotFound else if SecretUpdateAllowed(s, k, pre) then Done else Refused
    case ReadEmail => r == if s.email == "" then Refused else Email(s.email)
    case BuildDnsClient => r == Done
    case BuildAcmeClient => r == Done
    case IssueCertificate(_) => r.Issued? || r == Refused
    case Revoke(c) => r == if c in s.revoked then AlreadyRevoked else Done
    case CleanUpDns => r == Done || r == Refused
  }

  /** One call: it fails, with or without having taken effect, or it is carried out and answered. */
  ghost predicate Exec(s: Store, c: Call, r: Reply, s': Store) {
    if r == Failed then s' == s || s' == Apply(s, c)
    else s' == Apply(s, c) && Answers(s, c, r)
  }

  function SecretKey(k: Key, spec: CRSpec): Key {
    Key(k.ns, spec.secretName)
  }

  predicate HasFinalizer(meta: Meta) {
    FINALIZER in meta.finalizers
  }

  /** With the certman finalizer, and the others as before. */
  ghost predicate FinalizerAdded(now: Meta, was: Meta) {
    forall f :: f in now.finalizers <==> f in was.finalizers || f == "certificaterequests.certman.managed.openshift.io"
  }

  /** Without the certman finalizer, and the others as before. */
  ghost predicate FinalizerGone(now: Meta, was: Meta) {
    forall f :: f in now.finalizers <==> f in was.finalizers && f != "certificaterequests.certman.managed.openshift.io"
  }

  /** No object is both terminating and without finalizers. */
  ghost predicate Settled(s: Store) {
    && (forall k :: k in s.crs ==> !Gone(s.crs[k].meta))
    && (forall k :: k in s.cds ==> !Gone(s.cds[k].meta))
  }

  lemma ApplyKeepsSettled(s: Store, c: Call)
    requires Settled(s)
    ensures Settled(Apply(s, c))
  {
  }
}
