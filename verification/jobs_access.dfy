/** `jobs.access.run` of the CMS configuration. */
module JobsAccess {
  import opened Wrappers

  /** The header a cron caller must send: `Bearer ${process.env.CRON_SECRET}`,
      which reads "Bearer undefined" when the secret is unset. */
  function ExpectedHeader(cronSecret: Option<string>): (h: string)
    ensures cronSecret.Some? ==> h == "Bearer " + cronSecret.value
    ensures cronSecret.None? ==> h == "Bearer undefined"
  {
    "Bearer " + match cronSecret case Some(s) => s case None => "undefined"
  }

  /** `run`: any logged-in user, or a request whose `authorization` header
      (None when absent) is exactly the expected one. */
  function Run(loggedIn: bool, authorization: Option<string>, cronSecret: Option<string>): (ok: bool)
    ensures loggedIn ==> ok
    ensures !loggedIn ==> (ok <==> authorization == Some(ExpectedHeader(cronSecret)))
    ensures !loggedIn && authorization.None? ==> !ok
  {
    loggedIn || authorization == Some(ExpectedHeader(cronSecret))
  }

  /** With the secret unset, the literal header "Bearer undefined" opens
      the endpoint to anyone. */
  lemma UnsetSecretAcceptsLiteral()
    ensures Run(false, Some("Bearer undefined"), None)
  {
  }

  /** With a secret set, only that secret opens it: distinct secrets give
      distinct accepted headers. */
  lemma HeaderDeterminesSecret(s1: string, s2: string)
    requires Run(false, Some("Bearer " + s1), Some(s2))
    ensures s1 == s2
  {
    assert ("Bearer " + s1)[7..] == s1;
    assert ("Bearer " + s2)[7..] == s2;
  }
}
