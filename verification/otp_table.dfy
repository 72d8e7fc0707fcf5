/** The `whatsapp_verifications` table that the two OTP functions share, and
    the request shapes both functions accept. Rows are addressed by position:
    the table's `id` primary key is unique, so `.eq('id', row.id)` touches
    exactly the selected row. */
module OtpTable {
  import opened Common

  /** Attempt ceiling of verify-otp (`otpRecord.attempts >= 3`). */
  const MaxAttempts: nat := 3

  /** One row. Timestamps are integer milliseconds since the epoch. */
  datatype Verification = Verification(
    phone: string,
    code: string,
    expiresAt: int,
    verified: bool,
    verifiedAt: Option<int>,
    attempts: nat,
    createdAt: int)

  type Table = seq<Verification>

  /** The HTTP method of an incoming request: a preflight, a POST, or any other method. */
  datatype HttpMethod = Options | Post | OtherMethod

  /** A row the verifier may still act on for this number. */
  predicate IsPending(row: Verification, phone: string)
  {
    row.phone == phone && !row.verified
  }

  /** `.eq('phone_number', phone).eq('verified', false).order('created_at', desc).limit(1)`:
      the position of the most recently created unverified row for `phone`.
      Among rows created at the same instant the later one in table order is chosen. */
  function LatestPending(t: Table, phone: string): (r: Option<nat>)
    ensures r.Some? ==> r.value < |t| && IsPending(t[r.value], phone)
    ensures r.Some? ==> forall j :: 0 <= j < |t| && IsPending(t[j], phone) ==> t[j].createdAt <= t[r.value].createdAt
    ensures r.None? ==> forall j :: 0 <= j < |t| ==> !IsPending(t[j], phone)
  {
    if |t| == 0 then None
    else
      var prev := LatestPending(t[..|t| - 1], phone);
      var last := |t| - 1;
      if IsPending(t[last], phone) && (prev.None? || t[prev.value].createdAt <= t[last].createdAt) then Some(last)
      else prev
  }

  /** All rows stored for `phone`, in table order. */
  function RowsFor(t: Table, phone: string): Table
  {
    Filter(t, (row: Verification) => row.phone == phone)
  }

  /** No row has gone past the attempt ceiling. */
  predicate AttemptsBounded(t: Table)
  {
    forall i :: 0 <= i < |t| ==> t[i].attempts <= MaxAttempts
  }

  /** At most one unverified row per number (the design intends this; the issuer's delete keeps it). */
  predicate SinglePending(t: Table)
  {
    forall i, j :: 0 <= i < j < |t| && t[i].phone == t[j].phone ==> t[i].verified || t[j].verified
  }
}
