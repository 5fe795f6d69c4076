/**
 * validate.go: the validateChirp endpoint and its own copy of the
 * profanity filter, which tests words with an `||` chain instead of a map.
 */
module Validate {
  import opened Wrappers
  import opened GoStrings
  import opened Http
  import Chirps

  /** The `||` test of validate.go's cleanChirp. */
  function IsBadWord(word: string): (b: bool)
    ensures b <==> word in Chirps.BadWords
  {
    word == "kerfuffle" || word == "sharbert" || word == "fornax"
  }

  /** The `||` chain accepts exactly the words the badwords map of chirps.go marks true. */
  lemma BadWordTestsAgree(word: string)
    ensures IsBadWord(word) == Chirps.IsBadWord(word)
  {
  }

  /**
   * cleanChirp of validate.go. It computes the same function as the copy
   * in chirps.go: both are proved equal to Chirps.Cleaned.
   */
  method CleanChirp(chirp: string) returns (r: string)
    ensures r == Chirps.Cleaned(chirp)
  {
    var fields := Fields(chirp);
    var words := new string[|fields|](i requires 0 <= i < |fields| => fields[i]);
    for i := 0 to words.Length
      invariant forall k :: 0 <= k < i ==> words[k] == Chirps.CensorWord(fields[k])
      invariant forall k :: i <= k < words.Length ==> words[k] == fields[k]
    {
      var word := ToLower(words[i]);
      if IsBadWord(word) {
        words[i] := "****";
      }
    }
    assert words[..] == Chirps.Censored(fields);
    r := Join(words[..], " ");
  }

  /** The two JSON bodies validateChirp writes. */
  datatype Response = ErrorResponse(error: string) | ValidResponse(cleanedBody: string)

  /**
   * validateChirp. `body` is the decoded `body` field of the request, or
   * None when the request is not valid JSON.
   */
  method ValidateChirp(body: Option<string>) returns (status: int, response: Response)
    ensures body.None? ==> status == StatusBadRequest && response == ErrorResponse("Invalid JSON")
    ensures body.Some? ==> (status == StatusBadRequest <==> ByteLen(body.value) > Chirps.MaxChirpLength)
    ensures body.Some? && ByteLen(body.value) > Chirps.MaxChirpLength ==>
      response == ErrorResponse("Chirp is too long")
    ensures body.Some? && ByteLen(body.value) <= Chirps.MaxChirpLength ==>
      status == StatusOK && response == ValidResponse(Chirps.Cleaned(body.value))
  {
    if body.None? {
      return StatusBadRequest, ErrorResponse("Invalid JSON");
    }
    if ByteLen(body.value) > Chirps.MaxChirpLength {
      return StatusBadRequest, ErrorResponse("Chirp is too long");
    }
    var res := CleanChirp(body.value);
    return StatusOK, ValidResponse(res);
  }
}
