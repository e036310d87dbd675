/** The client's request helpers: turning a captured `data:` URL into an
    upload file, and the multipart fields `registerUser` and `recognizeFace`
    send. The browser's `atob` comes in as a parameter (`None` when it throws);
    the HTTP calls themselves are not modelled. */
module Api {
  import opened Wrappers
  import Text

  newtype byte = x: int | 0 <= x < 256

  /** A `File` object: its bytes, its name and its `type`. */
  datatype File = File(bytes: seq<byte>, name: string, mimeType: string)

  const NoMimeMatch := "Cannot read properties of null (reading '1')"
  const BadBase64 := "Failed to execute 'atob' on 'Window': The string to be decoded is not correctly encoded."

  /** The characters `.` does not match in a JavaScript regular expression. */
  predicate LineTerminator(c: char) {
    c == '\n' || c == '\r' || c == '\U{2028}' || c == '\U{2029}'
  }

  predicate NoLineBreak(t: string) {
    forall k :: 0 <= k < |t| ==> !LineTerminator(t[k])
  }

  /** `/:(.*?);/.exec(s)[1]` searching from position `from`: at the first `:`
      whose next `;` is reached without a line terminator, the text between them. */
  function MimeFrom(s: string, from: nat): (r: Option<string>)
    decreases |s| - from
  {
    if from >= |s| then None
    else if s[from] == ':' then
      var rest := s[from + 1..];
      var j := Text.FirstIndex(rest, ';');
      if j < |rest| && NoLineBreak(rest[..j]) then Some(rest[..j])
      else MimeFrom(s, from + 1)
    else MimeFrom(s, from + 1)
  }

  /** `s.match(/:(.*?);/)` and its capture group. */
  function Mime(s: string): Option<string> {
    MimeFrom(s, 0)
  }

  /** Without line terminators, the mime type is the text between the first
      `:` and the next `;`, and there is none when no `;` follows the first `:`. */
  lemma MimeBetween(s: string)
    requires NoLineBreak(s)
    ensures var i := Text.FirstIndex(s, ':');
      i == |s| ==> Mime(s) == None
    ensures var i := Text.FirstIndex(s, ':');
      i < |s| ==> Mime(s) == AfterColon(s[i + 1..])
  {
    var i := Text.FirstIndex(s, ':');
    MimeSkip(s, 0, i);
    if i < |s| {
      MimeAtColon(s, i);
    }
  }

  /** The text up to the first `;`, when there is one. */
  function AfterColon(rest: string): (r: Option<string>)
    ensures r.Some? <==> ';' in rest
    ensures r.Some? ==> |r.value| < |rest| && ';' !in r.value && rest[..|r.value|] == r.value && rest[|r.value|] == ';'
  {
    var j := Text.FirstIndex(rest, ';');
    if j < |rest| then Some(rest[..j]) else None
  }

  lemma MimeAtColon(s: string, i: nat)
    requires NoLineBreak(s) && i < |s| && s[i] == ':'
    ensures MimeFrom(s, i) == AfterColon(s[i + 1..])
  {
    var rest := s[i + 1..];
    var j := Text.FirstIndex(rest, ';');
    if j < |rest| {
      assert forall k :: 0 <= k < j ==> rest[..j][k] == s[i + 1 + k];
      assert NoLineBreak(rest[..j]);
    } else {
      MimeNoSemicolon(s, i + 1);
    }
  }

  /** Positions before the first `:` are skipped. */
  lemma {:induction false} MimeSkip(s: string, from: nat, i: nat)
    requires from <= i <= |s| && forall k :: from <= k < i ==> s[k] != ':'
    ensures MimeFrom(s, from) == MimeFrom(s, i)
    decreases i - from
  {
    if from < i {
      MimeSkip(s, from + 1, i);
    }
  }

  /** With no `;` after position `i`, nothing from `i` on matches. */
  lemma {:induction false} MimeNoSemicolon(s: string, i: nat)
    requires i <= |s| && ';' !in s[i..]
    ensures MimeFrom(s, i) == None
    decreases |s| - i
  {
    if i < |s| {
      assert s[i + 1..] == s[i..][1..];
      assert ';' !in s[i + 1..];
      MimeNoSemicolon(s, i + 1);
    }
  }

  /** What `atob` receives: `dataurl.split(',')[1]`, which is `undefined`
      (converted to the string "undefined") when there is no comma. */
  function Payload(dataurl: string): (r: string)
    ensures ',' !in r
  {
    var pieces := Text.Split(dataurl, ',');
    if |pieces| >= 2 then pieces[1] else "undefined"
  }

  /** The payload is the text between the first and the second comma. */
  lemma PayloadBetweenCommas(dataurl: string)
    requires ',' in dataurl
    ensures var i := Text.FirstIndex(dataurl, ',');
      var rest := dataurl[i + 1..];
      Payload(dataurl) == rest[..Text.FirstIndex(rest, ',')]
  {
    Text.SecondPiece(dataurl, ',');
  }

  /** What `Uint8Array` stores for `charCodeAt(i)`: the code modulo 256. */
  function ByteOf(c: char): byte {
    (c as int % 256) as byte
  }

  /** The bytes a `Uint8Array` holds for a binary string, one per character. */
  function Bytes(bstr: string): (r: seq<byte>)
    ensures |r| == |bstr|
    ensures forall i :: 0 <= i < |bstr| ==> r[i] as int == bstr[i] as int % 256
  {
    seq(|bstr|, i requires 0 <= i < |bstr| => ByteOf(bstr[i]))
  }

  /** The file `dataURLtoFile` makes, or the error it throws: the mime type
      from the header before the first comma, the bytes that `atob` decodes
      from the payload after it. */
  function ImageFile(dataurl: string, filename: string, atob: string -> Option<string>): (r: Result<File>)
    ensures r.Err? <==> Mime(Text.Split(dataurl, ',')[0]).None? || atob(Payload(dataurl)).None?
    ensures Mime(Text.Split(dataurl, ',')[0]).None? <==> r == Err(NoMimeMatch)
    ensures Mime(Text.Split(dataurl, ',')[0]).Some? && atob(Payload(dataurl)).None? ==> r == Err(BadBase64)
    ensures r.Ok? ==>
      var decoded := atob(Payload(dataurl));
      decoded.Some? &&
      r.value.name == filename && r.value.mimeType == Mime(Text.Split(dataurl, ',')[0]).value &&
      |r.value.bytes| == |decoded.value| &&
      forall i :: 0 <= i < |decoded.value| ==> r.value.bytes[i] as int == decoded.value[i] as int % 256
  {
    var mime := Mime(Text.Split(dataurl, ',')[0]);
    if mime.None? then Err(NoMimeMatch)
    else match atob(Payload(dataurl))
      case None => Err(BadBase64)
      case Some(bstr) => Ok(File(Bytes(bstr), filename, mime.value))
  }

  /** `dataURLtoFile`: the byte array is filled from the last character down. */
  method DataUrlToFile(dataurl: string, filename: string, atob: string -> Option<string>) returns (r: Result<File>)
    ensures r == ImageFile(dataurl, filename, atob)
  {
    var arr := Text.Split(dataurl, ',');
    var mime := Mime(arr[0]);
    if mime.None? {
      return Err(NoMimeMatch);
    }
    var decoded := atob(if |arr| >= 2 then arr[1] else "undefined");
    if decoded.None? {
      return Err(BadBase64);
    }
    var bstr := decoded.value;
    var n := |bstr|;
    var u8arr := new byte[n];
    while n > 0
      invariant 0 <= n <= |bstr|
      invariant forall k :: n <= k < |bstr| ==> u8arr[k] == ByteOf(bstr[k])
    {
      n := n - 1;
      u8arr[n] := ByteOf(bstr[n]);
    }
    assert u8arr[..] == Bytes(bstr);
    r := Ok(File(u8arr[..], filename, mime.value));
  }

  /** `useDeepLearning.toString()`. */
  function BoolString(b: bool): string {
    if b then "true" else "false"
  }

  /** The file name `registerUser` gives the photo. */
  function PhotoName(userId: string): string {
    userId + "_photo.jpg"
  }

  const RecognitionName := "recognition.jpg"

  /** One `FormData` entry. */
  datatype Field = TextField(name: string, text: string) | FileField(name: string, file: File)

  /** The fields of the `registerUser` request, in the order appended. */
  function RegisterFields(userId: string, name: string, photo: File): seq<Field> {
    [TextField("userId", userId), TextField("name", name), FileField("file", photo)]
  }

  /** The fields of the `recognizeFace` request, in the order appended. */
  function RecognizeFields(photo: File, useDeepLearning: bool): seq<Field> {
    [FileField("file", photo), TextField("useDeepLearning", BoolString(useDeepLearning))]
  }

  /** `registerUser` up to the POST: the fields it sends, or the error it throws. */
  method RegisterUser(userId: string, name: string, imageData: string, atob: string -> Option<string>)
    returns (r: Result<seq<Field>>)
    ensures var photo := ImageFile(imageData, PhotoName(userId), atob);
      (photo.Err? ==> r == Err(photo.error)) &&
      (photo.Ok? ==> r == Ok(RegisterFields(userId, name, photo.value)))
  {
    var photo := DataUrlToFile(imageData, PhotoName(userId), atob);
    if photo.Err? {
      return Err(photo.error);
    }
    r := Ok(RegisterFields(userId, name, photo.value));
  }

  /** `recognizeFace` up to the POST: the fields it sends, or the error it throws. */
  method RecognizeFace(imageData: string, useDeepLearning: bool, atob: string -> Option<string>)
    returns (r: Result<seq<Field>>)
    ensures var photo := ImageFile(imageData, RecognitionName, atob);
      (photo.Err? ==> r == Err(photo.error)) &&
      (photo.Ok? ==> r == Ok(RecognizeFields(photo.value, useDeepLearning)))
  {
    var photo := DataUrlToFile(imageData, RecognitionName, atob);
    if photo.Err? {
      return Err(photo.error);
    }
    r := Ok(RecognizeFields(photo.value, useDeepLearning));
  }
}
