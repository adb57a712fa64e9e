/** Turns `DecodingError.typeMismatch` into a readable bad-request result. */
module DecodingTypeMismatch {
  import opened Wrappers
  import opened Http
  import opened ErrorResults
  import Text

  const MessageStart := "Decoding request body failed. Make sure the '"
  const MessageMiddle := "' key exists and is of type "

  /** The coding path's keys, each by its string value, joined with ".". */
  function PathString(codingPath: seq<CodingKey>): (s: string)
    ensures codingPath == [] ==> s == ""
    ensures |codingPath| == 1 ==> s == codingPath[0].stringValue
  {
    Text.Join(seq(|codingPath|, i requires 0 <= i < |codingPath| => codingPath[i].stringValue), '.')
  }

  function Message(path: string, typeName: string): (m: string)
    ensures |m| == |MessageStart| + |path| + |MessageMiddle| + |typeName|
    ensures m[..|MessageStart|] == MessageStart
    ensures m[|MessageStart|..|MessageStart| + |path|] == path
    ensures m[|MessageStart| + |path|..|MessageStart| + |path| + |MessageMiddle|] == MessageMiddle
    ensures m[|MessageStart| + |path| + |MessageMiddle|..] == typeName
  {
    MessageStart + path + MessageMiddle + typeName
  }

  /** `convert(error:on:)`: a result only for a type mismatch, always bad request, naming the
      joined path and the type; every other error is left to the next specialisation. */
  function Convert(e: AppError): (r: Option<ErrorResult>)
    ensures r.Some? <==> e.TypeMismatch?
    ensures r.Some? ==> r.value.status == BadRequest
    ensures r.Some? ==> r.value.message == Message(PathString(e.codingPath), e.typeName)
  {
    match e
    case TypeMismatch(typeName, codingPath) => Some(ErrorResult(Message(PathString(codingPath), typeName), BadRequest))
    case _ => None
  }

  /** The reported path names the keys unambiguously when no key contains a dot: splitting it at
      the dots gives the keys back. */
  lemma PathRecoverable(codingPath: seq<CodingKey>)
    requires |codingPath| >= 1
    requires forall k :: 0 <= k < |codingPath| ==> Text.Free(codingPath[k].stringValue, '.')
    ensures Text.Split(PathString(codingPath), '.') == seq(|codingPath|, i requires 0 <= i < |codingPath| => codingPath[i].stringValue)
  {
    var keys := seq(|codingPath|, i requires 0 <= i < |codingPath| => codingPath[i].stringValue);
    Text.SplitJoin(keys, '.');
  }
}
