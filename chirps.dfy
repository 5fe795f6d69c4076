/**
 * The profanity filter of chirps.go (cleanChirp) and the chirp rows it
 * works with. `Cleaned` is the meaning of the filter; `CleanChirp` is the
 * source's in-place loop, proved to compute it.
 */
module Chirps {
  import opened GoStrings
  import opened Auth

  /** The words the filter censors, in lower case. */
  const BadWords: set<string> := {"kerfuffle", "sharbert", "fornax"}

  /** What a censored word is overwritten with. */
  const Censor: string := "****"

  /** The `badwords` map literal of cleanChirp. */
  const BadWordsTable: map<string, bool> := map["kerfuffle" := true, "sharbert" := true, "fornax" := true]

  /** badwords[word]: a word missing from the map reads as false. */
  function IsBadWord(word: string): (b: bool)
    ensures b <==> word in BadWords
  {
    word in BadWordsTable && BadWordsTable[word]
  }

  /** One word after filtering: censored when its lower-case form is a bad word, otherwise untouched. */
  function CensorWord(w: string): (r: string)
    ensures ToLower(w) in BadWords ==> r == Censor
    ensures ToLower(w) !in BadWords ==> r == w
    ensures IsField(w) ==> IsField(r)
  {
    if IsBadWord(ToLower(w)) then Censor else w
  }

  /** A censored word is never longer than the word: every bad word has more than four letters. */
  lemma CensorWordByteLen(w: string)
    ensures ByteLen(CensorWord(w)) <= ByteLen(w)
  {
    assert ByteLen(Censor) == 4;
  }

  function Censored(ws: seq<string>): seq<string> {
    seq(|ws|, i requires 0 <= i < |ws| => CensorWord(ws[i]))
  }

  /** What cleanChirp returns: the fields, each filtered, joined by single spaces. */
  function Cleaned(chirp: string): (r: string)
    ensures ByteLen(r) <= ByteLen(chirp)
  {
    var fs := Fields(chirp);
    FieldsByteLen(chirp);
    JoinByteLen(Censored(fs));
    CensoredByteLen(fs);
    Join(Censored(fs), " ")
  }

  /** Filtering never adds bytes to a list of words. */
  lemma {:induction false} CensoredByteLen(ws: seq<string>)
    ensures WordBytes(Censored(ws)) <= WordBytes(ws)
  {
    if ws != [] {
      assert Censored(ws)[1..] == Censored(ws[1..]);
      CensoredByteLen(ws[1..]);
      CensorWordByteLen(ws[0]);
    }
  }

  lemma CensoredFields(ws: seq<string>)
    requires forall i :: 0 <= i < |ws| ==> IsField(ws[i])
    ensures forall i :: 0 <= i < |Censored(ws)| ==> IsField(Censored(ws)[i])
  {
    forall i | 0 <= i < |ws| ensures IsField(Censored(ws)[i]) {
      assert Censored(ws)[i] == CensorWord(ws[i]);
    }
  }

  /** Splitting the output again gives the filtered input fields: the same number, in the same order. */
  lemma CleanedFields(chirp: string)
    ensures Fields(Cleaned(chirp)) == Censored(Fields(chirp))
  {
    CensoredFields(Fields(chirp));
    FieldsOfJoin(Censored(Fields(chirp)));
  }

  /**
   * Word i of the output is "****" when word i of the input is a bad word
   * in any letter case, and otherwise word i of the input, case kept.
   */
  lemma CleanedWordAt(chirp: string, i: nat)
    requires i < |Fields(chirp)|
    ensures |Fields(Cleaned(chirp))| == |Fields(chirp)|
    ensures ToLower(Fields(chirp)[i]) in BadWords ==> Fields(Cleaned(chirp))[i] == Censor
    ensures ToLower(Fields(chirp)[i]) !in BadWords ==> Fields(Cleaned(chirp))[i] == Fields(chirp)[i]
  {
    CleanedFields(chirp);
  }

  /** The output has no white space at the ends and exactly one space between words. */
  lemma CleanedSingleSpaced(chirp: string)
    ensures SingleSpaced(Cleaned(chirp))
  {
    CensoredFields(Fields(chirp));
    JoinSingleSpaced(Censored(Fields(chirp)));
  }

  lemma CensorWordIdempotent(w: string)
    ensures CensorWord(CensorWord(w)) == CensorWord(w)
  {
    assert ToLower(Censor) == Censor;
  }

  /** Filtering a filtered list of words changes nothing. */
  lemma CensoredIdempotent(ws: seq<string>)
    ensures Censored(Censored(ws)) == Censored(ws)
  {
    forall i | 0 <= i < |ws| ensures Censored(Censored(ws))[i] == Censored(ws)[i] {
      CensorWordIdempotent(ws[i]);
    }
  }

  /** Filtering a filtered chirp changes nothing. */
  lemma CleanedIdempotent(chirp: string)
    ensures Cleaned(Cleaned(chirp)) == Cleaned(chirp)
  {
    var ws := Censored(Fields(chirp));
    CleanedFields(chirp);
    CensoredIdempotent(Fields(chirp));
    assert Cleaned(Cleaned(chirp)) == Join(Censored(ws), " ");
  }

  /** Matching ignores letter case. */
  lemma CensorWordExamples()
    ensures CensorWord("Kerfuffle") == Censor
    ensures CensorWord("FORNAX") == Censor
  {
    assert ToLower("Kerfuffle") == "kerfuffle";
    assert ToLower("FORNAX") == "fornax";
  }

  /** Matching is on the whole word: punctuation or a suffix keeps a word. */
  lemma CensorWordKeeps()
    ensures CensorWord("kerfuffle!") == "kerfuffle!"
    ensures CensorWord("sharberts") == "sharberts"
  {
    assert ToLower("kerfuffle!") == "kerfuffle!";
    assert ToLower("sharberts") == "sharberts";
  }

  /**
   * cleanChirp of chirps.go: split into fields, overwrite bad words in
   * place with "****" (looked up in the badwords map), join with spaces.
   */
  method CleanChirp(chirp: string) returns (r: string)
    ensures r == Cleaned(chirp)
  {
    var fields := Fields(chirp);
    var words := new string[|fields|](i requires 0 <= i < |fields| => fields[i]);
    for i := 0 to words.Length
      invariant forall k :: 0 <= k < i ==> words[k] == CensorWord(fields[k])
      invariant forall k :: i <= k < words.Length ==> words[k] == fields[k]
    {
      var word := ToLower(words[i]);
      if IsBadWord(word) {
        words[i] := Censor;
      }
    }
    assert words[..] == Censored(fields);
    r := Join(words[..], " ");
  }

  /** A row of the chirps table (database.Chirp). */
  datatype DbChirp = DbChirp(id: Uuid, createdAt: Time, updatedAt: Time, body: string, userId: Uuid)

  /** The Chirp response type of chirps.go. */
  datatype Chirp = Chirp(id: Uuid, createdAt: Time, updatedAt: Time, body: string, userId: Uuid)

  /** The response chirp carries every field of the row it was built from. */
  ghost predicate Copies(c: Chirp, row: DbChirp) {
    c.id == row.id && c.createdAt == row.createdAt && c.updatedAt == row.updatedAt
    && c.body == row.body && c.userId == row.userId
  }

  /** The body limit of handlerCreateChirp and validateChirp, in bytes. */
  const MaxChirpLength: nat := 140
}
