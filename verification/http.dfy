/** The error the FastAPI handlers raise: `HTTPException(status_code, detail)`. */
module Http {
  import opened Strings

  datatype HttpError = HttpError(status: nat, detail: string)

  /** `str(exc)` of an `HTTPException`: the status code, a colon and a
      space, then the detail. */
  function ErrorText(e: HttpError): (r: string)
    ensures |r| > 2 + |e.detail|
    ensures r[|r| - |e.detail|..] == e.detail
  {
    NatToString(e.status) + ": " + e.detail
  }

  /** The status can be read back from the text. */
  lemma ErrorTextStatus(e: HttpError)
    ensures var n := |NatToString(e.status)|;
      |ErrorText(e)| > n + 1 && ErrorText(e)[n] == ':' &&
      (forall i :: 0 <= i < n ==> IsDigit(ErrorText(e)[i])) &&
      ParseDigits(ErrorText(e)[..n]) == e.status
  {
    var s := NatToString(e.status);
    assert ErrorText(e)[..|s|] == s;
    ParseNatToString(e.status);
  }
}
