/** The Flask request handlers: the upload-name check, the in-memory user
    registry (`registered_users`) and attendance ledger (`attendance_records`),
    and how each endpoint turns the face service's answer into a status code
    and a JSON body. Saving and deleting the uploaded file is left to the
    environment: an upload arrives with the image that reading it back yields. */
module App {
  import opened Wrappers
  import opened Dicts
  import opened Vision
  import opened FaceModel
  import opened ModelIntegration
  import Text

  const AllowedExtensions: set<string> := {"png", "jpg", "jpeg"}

  /** `rsplit('.', 1)[1]`: the text after the last dot, when there is a dot. */
  function Extension(filename: string): (r: Option<string>)
    ensures r.None? <==> '.' !in filename
    ensures r.Some? ==> '.' !in r.value
  {
    match Text.LastIndex(filename, '.')
    case None => None
    case Some(i) => Some(filename[i + 1..])
  }

  /** `allowed_file`. */
  predicate AllowedFile(filename: string) {
    var ext := Extension(filename);
    ext.Some? && AllowedExtension(ext.value)
  }

  /** `ext.lower() in ALLOWED_EXTENSIONS`. */
  predicate AllowedExtension(ext: string) {
    Text.Lower(ext) in AllowedExtensions
  }

  /** Position `i` holds the last dot of the name. */
  predicate LastDotAt(filename: string, i: int) {
    0 <= i < |filename| && filename[i] == '.' && forall j :: i < j < |filename| ==> filename[j] != '.'
  }

  /** A dot with no dot after it is the one `rsplit` splits at. */
  lemma {:induction false} LastDot(filename: string, i: nat)
    requires LastDotAt(filename, i)
    ensures Text.LastIndex(filename, '.') == Some(i)
  {
    var n := |filename| - 1;
    if i < n {
      assert forall j :: 0 <= j < n ==> filename[..n][j] == filename[j];
      LastDot(filename[..n], i);
    }
  }

  /** An allowed name has its extension after its last dot. */
  lemma AllowedHasLastDot(filename: string)
    requires AllowedFile(filename)
    ensures Text.LastIndex(filename, '.').Some?
    ensures var i := Text.LastIndex(filename, '.').value;
      LastDotAt(filename, i) && AllowedExtension(filename[i + 1..])
  {
  }

  /** An allowed extension after the last dot makes the name allowed. */
  lemma LastDotAllowed(filename: string, i: nat)
    requires LastDotAt(filename, i) && AllowedExtension(filename[i + 1..])
    ensures AllowedFile(filename)
  {
    LastDot(filename, i);
  }

  /** A name is allowed exactly when it has a dot and the text after its last
      dot, lower-cased, is `png`, `jpg` or `jpeg`. */
  lemma AllowedFileIff(filename: string)
    ensures AllowedFile(filename) <==>
      exists i :: LastDotAt(filename, i) && AllowedExtension(filename[i + 1..])
  {
    if AllowedFile(filename) {
      AllowedHasLastDot(filename);
    }
    forall i | LastDotAt(filename, i) && AllowedExtension(filename[i + 1..]) ensures AllowedFile(filename) {
      LastDotAllowed(filename, i);
    }
  }

  /** `request.form.get('useDeepLearning', 'false').lower() == 'true'`. */
  function UseDeepLearning(value: Option<string>): (r: bool)
    ensures value.None? ==> !r
    ensures value.Some? ==> (r <==> Text.Lower(value.value) == "true")
  {
    Text.Lower(value.GetOr("false")) == "true"
  }

  /** An uploaded file: its name and what reading the saved copy yields. */
  datatype Upload = Upload(filename: string, image: Option<Image>)
  datatype Request = Request(files: map<string, Upload>, form: map<string, string>)

  datatype UserInfo = UserInfo(name: string, photo: string)
  datatype UserRef = UserRef(userId: string, name: string)
  datatype AttendanceRecord = AttendanceRecord(userId: string, name: string, timestamp: string, confidence: real)

  datatype Body =
    | ErrorBody(error: string)
    | RegisteredBody(message: string, userId: string)
    | RecognizedBody(user: UserRef, confidence: real, attendanceRecorded: string)
    | NotRecognizedBody
    /** Flask's own error page for an exception no handler catches. */
    | ServerErrorBody
    | RecordsBody(records: seq<AttendanceRecord>)
    | UsersBody(users: seq<UserRef>)
    | TrainedBody(message: string)
    | TrainFailedBody(error: string)
  datatype Response = Response(status: int, body: Body)

  /** The name recorded for a recognised user: the registered name, else the id. */
  function NameOf(users: Dict<string, UserInfo>, userId: string): (r: string)
    ensures userId in users.entries ==> r == users.entries[userId].name
    ensures userId !in users.entries ==> r == userId
  {
    match Get(users, userId)
    case Some(info) => info.name
    case None => userId
  }

  /** The `/users` list: one `{userId, name}` per registered user, in registration order. */
  function UserList(users: Dict<string, UserInfo>): (r: seq<UserRef>)
    requires users.Valid()
    ensures |r| == |users.keys|
    ensures forall i :: 0 <= i < |r| ==> r[i] == UserRef(users.keys[i], users.entries[users.keys[i]].name)
  {
    seq(|users.keys|, i requires 0 <= i < |users.keys| => UserRef(users.keys[i], users.entries[users.keys[i]].name))
  }

  /** Each registered user is listed exactly once, under its registered name, and nobody else is. */
  lemma UserListExact(users: Dict<string, UserInfo>)
    requires users.Valid()
    ensures forall u :: u in users.entries ==> UserRef(u, users.entries[u].name) in UserList(users)
    ensures forall i :: 0 <= i < |UserList(users)| ==> UserList(users)[i].userId in users.entries
    ensures forall i, j :: 0 <= i < j < |UserList(users)| ==> UserList(users)[i].userId != UserList(users)[j].userId
  {
    forall u | u in users.entries ensures UserRef(u, users.entries[u].name) in UserList(users) {
      var i :| 0 <= i < |users.keys| && users.keys[i] == u;
      assert UserList(users)[i] == UserRef(u, users.entries[u].name);
    }
  }

  class Server {
    var attendanceRecords: seq<AttendanceRecord>
    var registeredUsers: Dict<string, UserInfo>
    const service: FaceRecognitionService

    ghost predicate Valid()
      reads this, service, service.model
    {
      registeredUsers.Valid() && service.Valid()
    }

    constructor (service: FaceRecognitionService)
      requires service.Valid()
      ensures Valid() && this.service == service
      ensures attendanceRecords == [] && registeredUsers == Empty()
    {
      this.service := service;
      attendanceRecords := [];
      registeredUsers := Empty();
    }

    /** `POST /register`. */
    method Register(request: Request, lib: FaceLibrary) returns (response: Response)
      requires Valid()
      modifies this`registeredUsers, service`userEncodings, service`savedEncodings, service`dataDir
      ensures Valid()
      ensures attendanceRecords == old(attendanceRecords)
      ensures response.status != 200 ==> registeredUsers == old(registeredUsers) && unchanged(service)
      ensures "file" !in request.files || "userId" !in request.form ==>
        response == Response(400, ErrorBody("Missing file or userId"))
      ensures "file" in request.files && "userId" in request.form ==>
        var userId := request.form["userId"];
        var name := if "name" in request.form then request.form["name"] else userId;
        var file := request.files["file"];
        (file.filename == "" ==> response == Response(400, ErrorBody("No file selected"))) &&
        (file.filename != "" && !AllowedFile(file.filename) ==> response == Response(400, ErrorBody("Invalid file type"))) &&
        (file.filename != "" && AllowedFile(file.filename) ==>
          (file.image.None? ==> response == Response(400, ErrorBody(ReadFailed))) &&
          (file.image.Some? && lib.locate(file.image.value) == [] ==> response == Response(400, ErrorBody(NoFace))) &&
          (file.image.Some? && lib.locate(file.image.value) != [] ==>
            var enc := lib.encode(file.image.value, lib.locate(file.image.value)[0]);
            response == Response(200, RegisteredBody("User " + name + " registered successfully", userId)) &&
            registeredUsers == Put(old(registeredUsers), userId, UserInfo(name, userId + "_" + file.filename)) &&
            service.userEncodings == Put(old(service.userEncodings), userId, enc) &&
            service.savedEncodings == old(service.savedEncodings)[EncodingFileName(userId) := enc] &&
            service.dataDir == old(service.dataDir) + {userId}))
    {
      if "file" !in request.files || "userId" !in request.form {
        return Response(400, ErrorBody("Missing file or userId"));
      }
      var userId := request.form["userId"];
      var name := if "name" in request.form then request.form["name"] else userId;
      var file := request.files["file"];
      if file.filename == "" {
        return Response(400, ErrorBody("No file selected"));
      }
      if !AllowedFile(file.filename) {
        return Response(400, ErrorBody("Invalid file type"));
      }
      var photo := userId + "_" + file.filename;
      var result := service.RegisterUser(userId, file.image, lib);
      if result.EnrolFailed? {
        return Response(400, ErrorBody(result.error));
      }
      registeredUsers := Put(registeredUsers, userId, UserInfo(name, photo));
      response := Response(200, RegisteredBody("User " + name + " registered successfully", userId));
    }

    /** `POST /recognize`: on a recognised face, append one attendance record
        stamped `now`; otherwise append nothing. */
    method Recognize(request: Request, now: string, lib: FaceLibrary, detector: Detector) returns (response: Response)
      requires Valid()
      modifies this`attendanceRecords
      ensures Valid()
      ensures response.status != 200 ==> attendanceRecords == old(attendanceRecords)
      ensures "file" !in request.files ==> response == Response(400, ErrorBody("No file uploaded"))
      ensures "file" in request.files && request.files["file"].filename == "" ==>
        response == Response(400, ErrorBody("No file selected"))
      ensures "file" in request.files && request.files["file"].filename != "" && !AllowedFile(request.files["file"].filename) ==>
        response == Response(400, ErrorBody("Invalid file type"))
      ensures "file" in request.files && request.files["file"].filename != "" && AllowedFile(request.files["file"].filename) ==>
        var flag := if "useDeepLearning" in request.form then Some(request.form["useDeepLearning"]) else None;
        var rec := service.RecognitionOf(request.files["file"].image, UseDeepLearning(flag), lib, detector);
        (rec.RecognizeFailed? ==> response == Response(400, ErrorBody(rec.error))) &&
        (rec.Raised? ==> response == Response(500, ServerErrorBody)) &&
        (rec.NotRecognized? ==> response == Response(404, NotRecognizedBody)) &&
        (rec.Recognized? ==>
          var name := NameOf(registeredUsers, rec.user);
          response == Response(200, RecognizedBody(UserRef(rec.user, name), rec.confidence, now)) &&
          attendanceRecords == old(attendanceRecords) + [AttendanceRecord(rec.user, name, now, rec.confidence)])
    {
      if "file" !in request.files {
        return Response(400, ErrorBody("No file uploaded"));
      }
      var file := request.files["file"];
      if file.filename == "" {
        return Response(400, ErrorBody("No file selected"));
      }
      var useDeep := UseDeepLearning(if "useDeepLearning" in request.form then Some(request.form["useDeepLearning"]) else None);
      if !AllowedFile(file.filename) {
        return Response(400, ErrorBody("Invalid file type"));
      }
      var result := service.RecognizeFace(file.image, useDeep, lib, detector);
      match result
      case Raised(_) =>
        // An exception the handler does not catch: Flask answers 500 with its own page.
        response := Response(500, ServerErrorBody);
      case RecognizeFailed(e) =>
        response := Response(400, ErrorBody(e));
      case NotRecognized =>
        response := Response(404, NotRecognizedBody);
      case Recognized(userId, confidence) =>
        var name := NameOf(registeredUsers, userId);
        var record := AttendanceRecord(userId, name, now, confidence);
        attendanceRecords := attendanceRecords + [record];
        response := Response(200, RecognizedBody(UserRef(userId, name), confidence, now));
    }

    /** `GET /attendance`: every record, in the order appended. */
    function Attendance(): (r: Response)
      reads this
      ensures r.status == 200 && r.body.RecordsBody?
      ensures r.body.records == attendanceRecords
    {
      Response(200, RecordsBody(attendanceRecords))
    }

    /** `GET /users`. */
    function Users(): (r: Response)
      reads this
      requires registeredUsers.Valid()
      ensures r.status == 200 && r.body == UsersBody(UserList(registeredUsers))
    {
      Response(200, UsersBody(UserList(registeredUsers)))
    }

    /** `POST /train-model`: `forceRetrain` defaults to false; the service's
        success becomes 200 with its message, its failure 400 with its error. */
    method TrainModel(forceRetrain: Option<bool>, found: Dict<string, int>) returns (response: Response)
      requires Valid() && found.Valid()
      modifies service`model, service`disk, service.model
      ensures Valid()
      ensures var expected := old(service.ExpectedTraining(forceRetrain.GetOr(false)));
        (response.status == 200 <==> expected.TrainSucceeded?) &&
        (expected.TrainSucceeded? ==> response == Response(200, TrainedBody(expected.message))) &&
        (expected.TrainFailed? ==> response == Response(400, TrainFailedBody(expected.error)))
      ensures response.status != 200 ==> service.disk == old(service.disk)
      ensures |old(service.dataDir)| < 2 ==> service.model == old(service.model)
      ensures |old(service.dataDir)| >= 2 ==>
        ((old(service.model) == null || forceRetrain == Some(true)) <==> service.model != old(service.model))
      ensures response.status == 200 ==>
        service.model != null && service.model.network.Some? &&
        service.disk == old(service.disk)[service.modelPath := Artifact(service.model.network.value, service.model.classes)]
    {
      var result := service.TrainModel(forceRetrain.GetOr(false), found);
      match result
      case TrainSucceeded(message) => response := Response(200, TrainedBody(message));
      case TrainFailed(error) => response := Response(400, TrainFailedBody(error));
    }
  }
}
