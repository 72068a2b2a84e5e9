/** The text tokens of the cursor listings: how the stores write their keys and read them back. */
module CursorTokens {
  import opened Outcomes
  import opened Calendar
  import opened CursorCodec
  import opened Keyset
  import opened TokenWalks

  datatype QueryError = UnknownField(field: string) | BadCursor(error: CodecError) | Database

  /** The boundary a cursor key stands for; the empty key is the first page. */
  function BoundaryOf(key: string): Result<Option<Key>, QueryError> {
    if key == "" then Ok(None)
    else
      match DecodeCursor(key)
      case Err(e) => Err(BadCursor(e))
      case Ok((at, idText)) =>
        match CastUuid(idText)
        case None => Err(Database)
        case Some(id) => Ok(Some(Key(at, id)))
  }

  function KeyText(k: Key): string {
    EncodeCursor(k.at, k.id)
  }

  /** The tokens of every store: keys written as text, and texts read as boundaries. */
  const CURSOR_TOKENS: Tokens<QueryError> := Tokens(BoundaryOf, KeyText)

  predicate FourDigitYear(t: Instant) {
    0 <= ToCivil(t).date.year < 10_000
  }

  function Readable(): Key -> bool {
    (k: Key) => FourDigitYear(k.at)
  }

  /** A next key leads to the boundary it was written for exactly when its year has four digits. */
  lemma NextKeyLeadsOn(k: Key)
    ensures KeyText(k) != ""
    ensures BoundaryOf(KeyText(k)) == if FourDigitYear(k.at) then Ok(Some(k)) else Err(BadCursor(MalformedTimestamp))
  {
    CursorRoundTrip(k.at, k.id);
  }

  /** Only the empty key reads as the first page, and a key without a bar is refused. */
  lemma OnlyTheEmptyKeyRestarts(key: string)
    ensures BoundaryOf(key) == Ok(None) <==> key == ""
    ensures key != "" && NoBar(key) ==> BoundaryOf(key) == Err(BadCursor(MalformedKey))
  {
    if NoBar(key) {
      DecodeMeans(key, "");
    }
  }

  /** A key of a timestamp and an id reads as their boundary, or names the part that is malformed. */
  lemma KeyMeans(before: string, after: string)
    requires NoBar(before)
    ensures BoundaryOf(before + "|" + after)
         == match ParseInstant(before)
            case None => Err(BadCursor(MalformedTimestamp))
            case Some(t) =>
              (match CastUuid(after)
               case None => Err(Database)
               case Some(id) => Ok(Some(Key(t, id))))
  {
    DecodeMeans(before, after);
  }

  /** The stores' tokens are legible for the keys of four-digit years. */
  lemma TokensLegible()
    ensures Legible(CURSOR_TOKENS, Readable())
  {
    forall k: Key
      ensures CURSOR_TOKENS.write(k) != ""
      ensures if Readable()(k) then CURSOR_TOKENS.read(CURSOR_TOKENS.write(k)) == Ok(Some(k))
              else CURSOR_TOKENS.read(CURSOR_TOKENS.write(k)).Err?
    {
      NextKeyLeadsOn(k);
    }
  }
}
