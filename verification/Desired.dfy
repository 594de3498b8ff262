/** The CertificateRequests a ClusterDeployment asks for. */
module Desired {
  import opened GoStrings
  import opened Kube

  datatype Wanted = Wanted(key: Key, owners: seq<OwnerRef>, spec: CRSpec)

  function WithStar(domain: string): string {
    if HasPrefix(domain, "*.") then domain else "*." + domain
  }

  function DefaultDomains(b: Bundle, cd: CD, extraRecord: string): seq<string> {
    if cd.spec.defaultCertificate != b.name then []
    else
      ["api." + cd.spec.clusterName + "." + cd.spec.baseDomain] +
      (if extraRecord == "" then [] else [extraRecord + "." + cd.spec.clusterName + "." + cd.spec.baseDomain])
  }

  function AdditionalDomains(b: Bundle, additional: seq<AdditionalCert>): seq<string> {
    if additional == [] then []
    else
      var last := additional[|additional| - 1];
      AdditionalDomains(b, additional[..|additional| - 1]) + (if last.name == b.name then [last.domain] else [])
  }

  function IngressDomains(b: Bundle, ingress: seq<Ingress>): seq<string> {
    if ingress == [] then []
    else
      var last := ingress[|ingress| - 1];
      IngressDomains(b, ingress[..|ingress| - 1]) + (if last.servingCertificate == b.name then [WithStar(last.domain)] else [])
  }

  function Domains(b: Bundle, cd: CD, extraRecord: string): seq<string> {
    DefaultDomains(b, cd, extraRecord) + AdditionalDomains(b, cd.spec.additional) + IngressDomains(b, cd.spec.ingress)
  }

  /** getDomainsForCertBundle */
  method GetDomainsForCertBundle(b: Bundle, cd: CD, extraRecord: string) returns (domains: seq<string>)
    ensures domains == Domains(b, cd, extraRecord)
  {
    domains := [];
    if cd.spec.defaultCertificate == b.name {
      domains := domains + ["api." + cd.spec.clusterName + "." + cd.spec.baseDomain];
      if extraRecord != "" {
        domains := domains + [extraRecord + "." + cd.spec.clusterName + "." + cd.spec.baseDomain];
      }
    }
    domains := AppendAdditional(b, cd.spec.additional, domains);
    domains := AppendIngress(b, cd.spec.ingress, domains);
  }

  /** The loop over the additional serving certificates. */
  method AppendAdditional(b: Bundle, additional: seq<AdditionalCert>, before: seq<string>) returns (domains: seq<string>)
    ensures domains == before + AdditionalDomains(b, additional)
  {
    domains := before;
    for i := 0 to |additional|
      invariant domains == before + AdditionalDomains(b, additional[..i])
    {
      assert additional[..i + 1][..i] == additional[..i];
      if additional[i].name == b.name {
        domains := domains + [additional[i].domain];
      }
    }
    assert additional[..|additional|] == additional;
  }

  /** The loop over the ingress list; its certificates are always wildcards. */
  method AppendIngress(b: Bundle, ingress: seq<Ingress>, before: seq<string>) returns (domains: seq<string>)
    ensures domains == before + IngressDomains(b, ingress)
  {
    domains := before;
    for i := 0 to |ingress|
      invariant domains == before + IngressDomains(b, ingress[..i])
    {
      assert ingress[..i + 1][..i] == ingress[..i];
      if ingress[i].servingCertificate == b.name {
        var ingressDomain := ingress[i].domain;
        if !HasPrefix(ingressDomain, "*.") {
          ingressDomain := "*." + ingressDomain;
        }
        domains := domains + [ingressDomain];
      }
    }
    assert ingress[..|ingress|] == ingress;
  }

  /** The wildcard form of an ingress domain: as it is if it starts with "*.", else with that in front. */
  predicate IsStarred(name: string, domain: string) {
    if |domain| >= 2 && domain[0] == '*' && domain[1] == '.' then name == domain else name == "*." + domain
  }

  lemma {:induction false} AdditionalExactly(b: Bundle, additional: seq<AdditionalCert>, d: string)
    ensures d in AdditionalDomains(b, additional) <==>
              exists i :: 0 <= i < |additional| && additional[i].name == b.name && additional[i].domain == d
  {
    if additional != [] {
      var front, last := additional[..|additional| - 1], additional[|additional| - 1];
      AdditionalExactly(b, front, d);
      assert additional == front + [last];
      if d in AdditionalDomains(b, front) {
        var i :| 0 <= i < |front| && front[i].name == b.name && front[i].domain == d;
        assert additional[i] == front[i];
      }
    }
  }

  /** A name is requested for a bundle exactly if it is one of the control plane's own names and the bundle
      is the default one, or an additional or ingress entry refers to the bundle. */
  lemma DomainsExactly(b: Bundle, cd: CD, extraRecord: string, d: string)
    ensures d in Domains(b, cd, extraRecord) <==>
              || (cd.spec.defaultCertificate == b.name &&
                  (|| d == "api." + cd.spec.clusterName + "." + cd.spec.baseDomain
                   || (extraRecord != "" && d == extraRecord + "." + cd.spec.clusterName + "." + cd.spec.baseDomain)))
              || (exists i :: 0 <= i < |cd.spec.additional| && cd.spec.additional[i].name == b.name && cd.spec.additional[i].domain == d)
              || (exists i :: 0 <= i < |cd.spec.ingress| && cd.spec.ingress[i].servingCertificate == b.name && IsStarred(d, cd.spec.ingress[i].domain))
    ensures cd.spec.defaultCertificate == b.name ==>
              Domains(b, cd, extraRecord) != [] && Domains(b, cd, extraRecord)[0] == "api." + cd.spec.clusterName + "." + cd.spec.baseDomain
  {
    AdditionalExactly(b, cd.spec.additional, d);
    IngressAreWildcards(b, cd.spec.ingress);
    hide AdditionalDomains, IngressDomains;
  }

  /** The ingress names are wildcards, one for each entry of the bundle. */
  lemma {:induction false} IngressAreWildcards(b: Bundle, ingress: seq<Ingress>)
    ensures forall d :: d in IngressDomains(b, ingress) <==>
              exists i :: 0 <= i < |ingress| && ingress[i].servingCertificate == b.name && IsStarred(d, ingress[i].domain)
    ensures forall d :: d in IngressDomains(b, ingress) ==> HasPrefix(d, "*.")
  {
    if ingress != [] {
      var front := ingress[..|ingress| - 1];
      IngressAreWildcards(b, front);
      var last := ingress[|ingress| - 1];
      forall d | d in IngressDomains(b, ingress)
        ensures exists i :: 0 <= i < |ingress| && ingress[i].servingCertificate == b.name && IsStarred(d, ingress[i].domain)
      {
        if d in IngressDomains(b, front) {
          var i :| 0 <= i < |front| && front[i].servingCertificate == b.name && IsStarred(d, front[i].domain);
          assert ingress[i] == front[i];
        }
      }
    }
  }

  /** Later platforms win, as each assignment overwrites the one before. */
  function PlatformOf(spec: CDSpec): Platform {
    if spec.azure.Some? then Azure(spec.azure.value.0, spec.azure.value.1)
    else if spec.aws.Some? then AWS(spec.aws.value.0, spec.aws.value.1)
    else if spec.gcp.Some? then GCP(spec.gcp.value)
    else NoPlatform
  }

  function NameFor(cdKey: Key, b: Bundle): Key {
    Key(cdKey.ns, ToLower(cdKey.name + "-" + b.name))
  }

  /** createCertificateRequest, with the owner reference that is set before it is created. */
  function WantedFor(cdKey: Key, cd: CD, b: Bundle, email: string, extraRecord: string): Wanted {
    Wanted(
      NameFor(cdKey, b),
      [OwnerRef(CLUSTER_DEPLOYMENT, cdKey.name)],
      CRSpec(cd.spec.baseDomain, b.secretName, PlatformOf(cd.spec), Domains(b, cd, extraRecord), email, 0,
             cd.spec.apiURL, cd.spec.webConsoleURL))
  }

  /** Field by field, the spec of the CertificateRequest for a bundle. The platform set last wins: Azure over
      AWS over GCP. ReissueBeforeDays is never set. */
  predicate Describes(spec: CRSpec, cd: CD, b: Bundle, domains: seq<string>, email: string) {
    && spec.acmeDnsDomain == cd.spec.baseDomain
    && spec.secretName == b.secretName
    && spec.dnsNames == domains
    && spec.email == email
    && spec.reissueBeforeDays == 0
    && spec.apiURL == cd.spec.apiURL
    && spec.webConsoleURL == cd.spec.webConsoleURL
    && (cd.spec.azure.Some? ==>
          spec.platform.Azure? && spec.platform.credentials == cd.spec.azure.value.0 && spec.platform.resourceGroup == cd.spec.azure.value.1)
    && (cd.spec.azure.None? && cd.spec.aws.Some? ==>
          spec.platform.AWS? && spec.platform.credentials == cd.spec.aws.value.0 && spec.platform.region == cd.spec.aws.value.1)
    && (cd.spec.azure.None? && cd.spec.aws.None? && cd.spec.gcp.Some? ==>
          spec.platform.GCP? && spec.platform.credentials == cd.spec.gcp.value)
    && (cd.spec.azure.None? && cd.spec.aws.None? && cd.spec.gcp.None? ==> spec.platform.NoPlatform?)
  }

  method CreateCertificateRequest(cdKey: Key, cd: CD, b: Bundle, domains: seq<string>, email: string, extraRecord: string)
    returns (w: Wanted)
    requires domains == Domains(b, cd, extraRecord)
    ensures w == WantedFor(cdKey, cd, b, email, extraRecord)
    ensures Describes(w.spec, cd, b, domains, email)
    ensures w.key == Key(cdKey.ns, ToLower(cdKey.name + "-" + b.name))
    ensures w.owners == [OwnerRef("ClusterDeployment", cdKey.name)]
  {
    var name := ToLower(cdKey.name + "-" + b.name);
    var platform := NoPlatform;
    if cd.spec.gcp.Some? {
      platform := GCP(cd.spec.gcp.value);
    }
    if cd.spec.aws.Some? {
      platform := AWS(cd.spec.aws.value.0, cd.spec.aws.value.1);
    }
    if cd.spec.azure.Some? {
      platform := Azure(cd.spec.azure.value.0, cd.spec.azure.value.1);
    }
    w := Wanted(Key(cdKey.ns, name), [OwnerRef(CLUSTER_DEPLOYMENT, cdKey.name)],
                CRSpec(cd.spec.baseDomain, b.secretName, platform, domains, email, 0, cd.spec.apiURL, cd.spec.webConsoleURL));
  }

  predicate Names(ws: seq<Wanted>, k: Key) {
    exists i :: 0 <= i < |ws| && ws[i].key.name == k.name
  }

  /** The listed keys no wanted CertificateRequest has, in listing order. */
  function Extra(current: seq<Key>, ws: seq<Wanted>): (r: seq<Key>)
    ensures forall k :: k in r <==> k in current && !Names(ws, k)
  {
    if current == [] then []
    else
      var last := current[|current| - 1];
      Extra(current[..|current| - 1], ws) + (if Names(ws, last) then [] else [last])
  }
}
