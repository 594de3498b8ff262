/** The status of a CertificateRequest over many failed and successful issuances. */
module Conditions {
  import opened GoStrings
  import opened Certificates
  import opened Renewal
  import opened Kube
  import opened CRProtocol
  import CRTraces
  import Issuance

  /** The status after a series of failed issuances, each with the text of its error. */
  function AfterErrors(st: CRStatus, messages: seq<string>): CRStatus {
    if messages == [] then st
    else ErrorStatus(AfterErrors(st, messages[..|messages| - 1]), messages[|messages| - 1])
  }

  function FirstAcme(messages: seq<string>): Option<string> {
    if messages == [] then None
    else if FirstAcme(messages[..|messages| - 1]).Some? then FirstAcme(messages[..|messages| - 1])
    else if Contains(messages[|messages| - 1], "acme") then Some(messages[|messages| - 1])
    else None
  }

  /** However many issuances fail, the conditions gain at most one entry: the first error that mentions
      "acme", and only if no such condition was there. */
  lemma {:induction false} AcmeErrorIsRecordedOnce(st: CRStatus, messages: seq<string>)
    ensures AfterErrors(st, messages).conditions
            == st.conditions + (if (exists i :: 0 <= i < |st.conditions| && st.conditions[i].ctype == "acme error") || FirstAcme(messages) == None
                                then [] else [Condition("acme error", "Error", FirstAcme(messages).value)])
    ensures messages != [] ==> !AfterErrors(st, messages).issued && AfterErrors(st, messages).status == "Error"
    ensures var after := AfterErrors(st, messages);
            after.issuerName == st.issuerName && after.notBefore == st.notBefore && after.notAfter == st.notAfter && after.serialNumber == st.serialNumber
  {
    hide Contains;
    if messages == [] {
      assert st.conditions + [] == st.conditions;
    } else {
      var front := messages[..|messages| - 1];
      AcmeErrorIsRecordedOnce(st, front);
      var before := AfterErrors(st, front);
      if HasAcmeError(st) {
        var i :| 0 <= i < |st.conditions| && st.conditions[i].ctype == ACME_ERROR;
        assert before.conditions[i].ctype == ACME_ERROR;
      } else if FirstAcme(front).Some? {
        assert before.conditions[|st.conditions|].ctype == ACME_ERROR;
      } else {
        assert before.conditions == st.conditions;
      }
    }
  }

  /** A success after any errors makes the status agree with the certificate, and keeps the conditions. */
  lemma SuccessAfterErrors(st: CRStatus, messages: seq<string>, c: Certificate)
    ensures StatusAgrees(StatusFor(AfterErrors(st, messages), c), c)
    ensures StatusFor(AfterErrors(st, messages), c).conditions == AfterErrors(st, messages).conditions
    ensures StatusFor(AfterErrors(st, messages), c).status == "Success"
    ensures messages != [] ==> !StatusAgrees(AfterErrors(st, messages), c)
  {
    AcmeErrorIsRecordedOnce(st, messages);
  }

  /** What an issuance left in the secret is read back as its first certificate, is left alone until n+1
      days before that certificate ends, and lets no reconcile order again before. */
  lemma IssuedSecretIsKept(secret: Secret, spec: CRSpec, name: string, chain: seq<Certificate>, certKey: nat, now: int)
    requires Issuance.Holds(secret.labels, secret.tlsCert, secret.tlsKey, name, chain, certKey)
    requires chain[0].dnsNames == spec.dnsNames && ReissueBefore(spec.reissueBeforeDays) < MAX_DAYS
    ensures CertificateOf(secret) == Ok(chain[0])
    ensures Reissue(secret, spec.dnsNames, spec.reissueBeforeDays, now) == Ok(false)
            <==> now <= chain[0].notAfter - (ReissueBefore(spec.reissueBeforeDays) + 1) * DAY
    ensures now <= chain[0].notAfter - (ReissueBefore(spec.reissueBeforeDays) + 1) * DAY ==> CRTraces.FreshFor(secret, spec, now)
  {
    assert secret.tlsCert.value == [CertBlock(chain[0])] + [CertBlock(chain[1])];
    FreshCertificateIsKept(chain[0], [CertBlock(chain[1])], secret, spec.dnsNames, spec.reissueBeforeDays, now);
  }
}
