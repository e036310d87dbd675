/** The request contract between the client helpers and the Flask handlers:
    what the server reads from the multipart fields the client sends. */
module RequestContract {
  import opened Wrappers
  import Text
  import Vision
  import Api
  import App

  /** The text fields as Flask's `request.form` holds them: when a name repeats,
      the first field wins, as `request.form[k]` returns the first value. */
  function FormOf(fields: seq<Api.Field>): (r: map<string, string>)
    ensures forall k :: k in r <==> exists i :: 0 <= i < |fields| && fields[i].TextField? && fields[i].name == k
  {
    if fields == [] then map[]
    else
      var rest := FormOf(fields[1..]);
      assert forall i :: 0 < i < |fields| ==> fields[i] == fields[1..][i - 1];
      if fields[0].TextField? then rest[fields[0].name := fields[0].text] else rest
  }

  /** The file fields as `request.files` holds them; `image` is what reading the
      saved upload back yields. */
  function FilesOf(fields: seq<Api.Field>, image: Option<Vision.Image>): (r: map<string, App.Upload>)
    ensures forall k :: k in r <==> exists i :: 0 <= i < |fields| && fields[i].FileField? && fields[i].name == k
  {
    if fields == [] then map[]
    else
      var rest := FilesOf(fields[1..], image);
      assert forall i :: 0 < i < |fields| ==> fields[i] == fields[1..][i - 1];
      if fields[0].FileField? then rest[fields[0].name := App.Upload(fields[0].file.name, image)] else rest
  }

  /** The request the server parses from the multipart fields the client sends. */
  function ToRequest(fields: seq<Api.Field>, image: Option<Vision.Image>): App.Request {
    App.Request(FilesOf(fields, image), FormOf(fields))
  }

  /** The boolean the client sends as text is parsed back to itself. */
  lemma FlagRoundTrip(b: bool)
    ensures App.UseDeepLearning(Some(Api.BoolString(b))) == b
  {
    if b {
      assert Text.Lower("true") == "true";
    } else {
      assert Text.Lower("false") != "true" by {
        assert |Text.Lower("false")| == 5;
      }
    }
  }

  /** A `.jpg` name passes the server's extension check whatever comes before the dot. */
  lemma JpgAllowed(stem: string)
    ensures App.AllowedFile(stem + ".jpg")
  {
    var f := stem + ".jpg";
    var i := |stem|;
    assert f[i + 1..] == "jpg";
    assert App.LastDotAt(f, i);
    App.LastDot(f, i);
    assert Text.Lower("jpg") == "jpg";
  }

  /** The file names the client generates always pass `allowed_file`. */
  lemma GeneratedNamesAllowed(userId: string)
    ensures App.AllowedFile(Api.PhotoName(userId))
    ensures App.AllowedFile(Api.RecognitionName)
  {
    assert Api.PhotoName(userId) == (userId + "_photo") + ".jpg";
    JpgAllowed(userId + "_photo");
    assert Api.RecognitionName == "recognition" + ".jpg";
    JpgAllowed("recognition");
  }

  /** A registration the client sends passes every guard of `/register`:
      the server sees the same user id and name and an allowed, non-empty file name. */
  lemma RegisterRequestAccepted(userId: string, name: string, photo: Api.File, image: Option<Vision.Image>)
    requires photo.name == Api.PhotoName(userId)
    ensures var req := ToRequest(Api.RegisterFields(userId, name, photo), image);
      "file" in req.files && "userId" in req.form && "name" in req.form &&
      req.form["userId"] == userId && req.form["name"] == name &&
      req.files["file"] == App.Upload(photo.name, image) &&
      req.files["file"].filename != "" && App.AllowedFile(req.files["file"].filename)
  {
    var fields := Api.RegisterFields(userId, name, photo);
    assert fields[1..][1..][1..] == [];
    assert FormOf(fields) == map["name" := name]["userId" := userId];
    assert FilesOf(fields[1..][1..], image) == map["file" := App.Upload(photo.name, image)];
    assert FilesOf(fields, image) == map["file" := App.Upload(photo.name, image)];
    GeneratedNamesAllowed(userId);
  }

  /** A recognition the client sends passes every guard of `/recognize`, and
      the server reads back the flag the client chose. */
  lemma RecognizeRequestAccepted(photo: Api.File, useDeepLearning: bool, image: Option<Vision.Image>)
    requires photo.name == Api.RecognitionName
    ensures var req := ToRequest(Api.RecognizeFields(photo, useDeepLearning), image);
      "file" in req.files && req.files["file"] == App.Upload(photo.name, image) &&
      req.files["file"].filename != "" && App.AllowedFile(req.files["file"].filename) &&
      "useDeepLearning" in req.form &&
      App.UseDeepLearning(Some(req.form["useDeepLearning"])) == useDeepLearning
  {
    var fields := Api.RecognizeFields(photo, useDeepLearning);
    assert fields[1..][1..] == [];
    assert FormOf(fields) == map["useDeepLearning" := Api.BoolString(useDeepLearning)];
    assert FilesOf(fields, image) == map["file" := App.Upload(photo.name, image)];
    GeneratedNamesAllowed("");
    FlagRoundTrip(useDeepLearning);
  }
}
