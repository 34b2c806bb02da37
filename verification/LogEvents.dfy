/** Lifecycle events of the method-agnostic log (`log/log.go`). */
module LogEvents {
  import opened Wrappers

  datatype EventType =
    | Issuance | KeyRotation | Revocation | Retirement | Migration | Delegation
    | Unsupported(name: string)

  /** A public key as far as replay looks at it: its thumbprint, if it has one. */
  datatype PublicKey = PublicKey(thumbprint: Option<string>)

  datatype LogEvent = LogEvent(
    kind: EventType,
    domain: string,
    timestamp: int,
    initialEntityKey: Option<PublicKey>,
    initialEntityThumbprint: string,
    initialOperationalKey: Option<PublicKey>,
    initialOperationalThumbprint: string,
    previousOperationalThumbprint: string,
    newOperationalKey: Option<PublicKey>,
    newOperationalThumbprint: string,
    governanceId: string,
    reason: string,
    previousLog: string,
    newLog: string,
    finalEntryRef: string)

  function KeyThumbprint(key: Option<PublicKey>): Option<string> {
    if key.None? then None else key.value.thumbprint
  }

  predicate ValidRevocationReason(reason: string) {
    reason in {"keyCompromise", "policyViolation", "superseded", "cessationOfOperation"}
  }

  function Lower(c: char): char {
    if 'A' <= c <= 'Z' then (c as int - 'A' as int + 'a' as int) as char else c
  }

  /** Equality of domain names, which are ASCII, up to case. */
  predicate EqualFold(a: string, b: string) {
    |a| == |b| && forall i | 0 <= i < |a| :: Lower(a[i]) == Lower(b[i])
  }

  predicate IsMigration(e: LogEvent) {
    e.kind == Migration
  }
}
