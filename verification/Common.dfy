/** Shared vocabulary: optional values, results, and the string trimming the services apply. */
module Common {
  datatype Option<+T> = None | Some(value: T)

  /** The failures the commercial services raise, by the code or message they carry. */
  datatype Error =
    | InvalidUnit
    | ZeroDuration
    | NegativeDuration
    | InvalidDuration
    | InvalidReason
    | Overlap
    | NotCurrent
    | ShortenInPast
    | PersistFailed
    | SnapshotIncomplete
    | SnapshotConflict
    | ChargedTermsIncomplete
    | HistoricalTermsImmutable
    | BindingPersistFailed
    | FinancialIncomplete
    | InvalidStatus
    | TrialConflict
    | NotFound
    | InvalidEndDate
    | UseReactivate
    | FreePeriodRequired
    | PeriodNotFuture
    | AlreadyEntitled
    | AlreadySubscribed
    | ConflictingPeriodEnd

  datatype Result<+T> = Ok(value: T) | Err(error: Error)

  predicate IsBlank(c: char) {
    c == ' ' || c == '\t' || c == '\n' || c == '\r'
  }

  function TrimStart(s: string): (r: string)
    ensures r == "" || !IsBlank(r[0])
    ensures |r| <= |s|
  {
    if s != "" && IsBlank(s[0]) then TrimStart(s[1..]) else s
  }

  function TrimEnd(s: string): (r: string)
    ensures r == "" || !IsBlank(r[|r| - 1])
    ensures r <= s
  {
    if s != "" && IsBlank(s[|s| - 1]) then TrimEnd(s[..|s| - 1]) else s
  }

  /** A string with the blanks at both ends removed. */
  function Trim(s: string): string {
    TrimEnd(TrimStart(s))
  }

  /** The `n` first characters, or the `n` last, are blank. */
  ghost predicate StartsBlank(s: string, n: nat) {
    n <= |s| && forall i :: 0 <= i < n ==> IsBlank(s[i])
  }

  ghost predicate EndsBlank(s: string, n: nat) {
    n <= |s| && forall i :: |s| - n <= i < |s| ==> IsBlank(s[i])
  }

  lemma {:induction false} TrimStartDropsBlanks(s: string)
    ensures var n := |s| - |TrimStart(s)|; n >= 0 && StartsBlank(s, n) && TrimStart(s) == s[n..]
  {
    if s != "" && IsBlank(s[0]) {
      TrimStartDropsBlanks(s[1..]);
      forall i | 0 <= i < |s| - |TrimStart(s)| ensures IsBlank(s[i]) {
        assert i > 0 ==> s[i] == s[1..][i - 1];
      }
    }
  }

  lemma {:induction false} TrimEndDropsBlanks(s: string)
    ensures EndsBlank(s, |s| - |TrimEnd(s)|)
  {
    if s != "" && IsBlank(s[|s| - 1]) {
      TrimEndDropsBlanks(s[..|s| - 1]);
    }
  }

  /** Trimming drops blanks before and after, all of them, and nothing else. */
  lemma TrimDropsBlanks(s: string) returns (front: nat, back: nat)
    ensures front + back <= |s| && StartsBlank(s, front) && EndsBlank(s, back)
    ensures Trim(s) == s[front..|s| - back]
    ensures Trim(s) != "" ==> !IsBlank(s[front]) && !IsBlank(s[|s| - back - 1])
  {
    TrimStartDropsBlanks(s);
    TrimEndDropsBlanks(TrimStart(s));
    front := |s| - |TrimStart(s)|;
    back := |TrimStart(s)| - |Trim(s)|;
    forall i | |s| - back <= i < |s| ensures IsBlank(s[i]) {
      assert s[i] == TrimStart(s)[i - front];
    }
  }

  lemma TrimIsIdempotent(s: string)
    ensures Trim(Trim(s)) == Trim(s)
  {
    var t := TrimStart(s);
    var r := TrimEnd(t);
    if r != "" {
      assert r[0] == t[0];
    }
  }
}
