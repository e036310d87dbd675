/** The face service (`FaceRecognitionService`): enrolment of a user's face
    encoding, recognition by the classical first-match loop or by the
    deep-learning classifier, and the training decision. The encodings
    directory, the training-data directory and the saved model are kept as
    state of the service; the vision libraries come in as parameters. */
module ModelIntegration {
  import opened Wrappers
  import opened Dicts
  import opened Vision
  import opened FaceModel
  import Text

  const PickleSuffix := ".pkl"
  const TrainEpochs := 15
  const FineTuneEpochs := 5
  const TrainBatchSize := 8

  const ReadFailed := "Failed to read image"
  const NoFace := "No face detected in the image"
  const TooFewUsers := "Need at least 2 users to train the model"
  const TrainedMessage := "Model trained successfully"

  /** One entry of the encodings directory: its name and the unpickled encoding
      (`None` when unpickling fails). */
  datatype EncodingFile = EncodingFile(name: string, content: Option<Encoding>)

  /** The dictionaries `register_user`, `recognize_face` and `train_model` return. */
  datatype Enrolment = Registered(message: string) | EnrolFailed(error: string)
  datatype Recognition =
    | Recognized(user: string, confidence: real)
    | NotRecognized
    | RecognizeFailed(error: string)
    /** An exception the service does not catch (from the classifier). */
    | Raised(error: string)
  datatype Training = TrainSucceeded(message: string) | TrainFailed(error: string)

  predicate EndsWith(s: string, suffix: string) {
    |suffix| <= |s| && s[|s| - |suffix|..] == suffix
  }

  /** `file_name.split('.')[0]`: the text before the first dot. */
  function UserIdOf(fileName: string): (r: string)
    ensures '.' !in r
    ensures |r| <= |fileName| && fileName[..|r|] == r
    ensures |r| < |fileName| ==> fileName[|r|] == '.'
  {
    Text.Split(fileName, '.')[0]
  }

  /** The file `register_user` writes for a user. */
  function EncodingFileName(userId: string): string {
    userId + PickleSuffix
  }

  /** A user's encoding file is read back under the same user id exactly when
      the id has no dot: `a.b` is saved as `a.b.pkl` and reloaded as `a`. */
  lemma UserIdRoundTrip(userId: string)
    ensures UserIdOf(EncodingFileName(userId)) == userId <==> '.' !in userId
  {
    var f := EncodingFileName(userId);
    assert f[|userId|] == '.';
    assert forall j :: 0 <= j < |userId| ==> f[j] == userId[j];
  }

  /** The dictionary `load_encodings` ends with: each `.pkl` file that unpickles,
      in listing order, stored under the text before its first dot. */
  function LoadAll(encodings: Dict<string, Encoding>, listing: seq<EncodingFile>): (r: Dict<string, Encoding>)
    requires encodings.Valid()
    ensures r.Valid()
  {
    if listing == [] then encodings
    else
      var d := LoadAll(encodings, listing[..|listing| - 1]);
      var f := listing[|listing| - 1];
      if EndsWith(f.name, PickleSuffix) && f.content.Some? then Put(d, UserIdOf(f.name), f.content.value) else d
  }

  /** A file is taken into account when it ends in `.pkl` and unpickles. */
  predicate Loadable(f: EncodingFile) {
    EndsWith(f.name, PickleSuffix) && f.content.Some?
  }

  /** The user ids of the loadable files of a listing. */
  function LoadedIds(listing: seq<EncodingFile>): set<string> {
    set i | 0 <= i < |listing| && Loadable(listing[i]) :: UserIdOf(listing[i].name)
  }

  lemma LoadedIdsStep(listing: seq<EncodingFile>)
    requires listing != []
    ensures var last := listing[|listing| - 1];
      LoadedIds(listing) == LoadedIds(listing[..|listing| - 1]) + (if Loadable(last) then {UserIdOf(last.name)} else {})
  {
    var n := |listing| - 1;
    forall k | k in LoadedIds(listing) ensures k in LoadedIds(listing[..n]) || (Loadable(listing[n]) && k == UserIdOf(listing[n].name)) {
      var i :| 0 <= i < |listing| && Loadable(listing[i]) && UserIdOf(listing[i].name) == k;
      if i < n { assert listing[..n][i] == listing[i]; }
    }
    forall k | k in LoadedIds(listing[..n]) ensures k in LoadedIds(listing) {
      var i :| 0 <= i < n && Loadable(listing[..n][i]) && UserIdOf(listing[..n][i].name) == k;
      assert listing[i] == listing[..n][i];
    }
  }

  /** `load_encodings` adds exactly the ids of the files that end in `.pkl`
      and unpickle, and keeps the keys already present. */
  lemma {:induction false} LoadAllKeys(encodings: Dict<string, Encoding>, listing: seq<EncodingFile>)
    requires encodings.Valid()
    ensures LoadAll(encodings, listing).entries.Keys == encodings.entries.Keys + LoadedIds(listing)
  {
    if listing != [] {
      LoadAllKeys(encodings, listing[..|listing| - 1]);
      LoadedIdsStep(listing);
    }
  }

  /** The encoding kept for a user is that of the last loadable file named after it. */
  lemma {:induction false} LoadAllLastWins(encodings: Dict<string, Encoding>, listing: seq<EncodingFile>, i: nat)
    requires encodings.Valid()
    requires i < |listing| && Loadable(listing[i])
    requires forall j :: i < j < |listing| && Loadable(listing[j]) ==> UserIdOf(listing[j].name) != UserIdOf(listing[i].name)
    ensures UserIdOf(listing[i].name) in LoadAll(encodings, listing).entries
    ensures LoadAll(encodings, listing).entries[UserIdOf(listing[i].name)] == listing[i].content.value
  {
    if i < |listing| - 1 {
      LoadAllLastWins(encodings, listing[..|listing| - 1], i);
    }
  }

  /** The index of the first user, in dictionary order, whose stored encoding
      matches the probe. */
  function FirstMatch(lib: FaceLibrary, users: seq<string>, encodings: map<string, Encoding>, probe: Encoding): (r: Option<nat>)
    requires forall u :: u in users ==> u in encodings
    ensures r.Some? ==> r.value < |users| && Matches(lib, encodings[users[r.value]], probe)
    ensures r.Some? ==> forall j :: 0 <= j < r.value ==> !Matches(lib, encodings[users[j]], probe)
    ensures r.None? ==> forall j :: 0 <= j < |users| ==> !Matches(lib, encodings[users[j]], probe)
  {
    if users == [] then None
    else if Matches(lib, encodings[users[0]], probe) then Some(0)
    else match FirstMatch(lib, users[1..], encodings, probe)
      case None => None
      case Some(j) => Some(j + 1)
  }

  /** What the classical path answers for a readable image. */
  function Classical(lib: FaceLibrary, encodings: Dict<string, Encoding>, image: Image): Recognition
    requires encodings.Valid()
  {
    var locations := lib.locate(image);
    if locations == [] then RecognizeFailed(NoFace)
    else
      var probe := lib.encode(image, locations[0]);
      match FirstMatch(lib, encodings.keys, encodings.entries, probe)
      case None => NotRecognized
      case Some(i) =>
        var u := encodings.keys[i];
        Recognized(u, 1.0 - lib.distance(encodings.entries[u], probe))
  }

  /** The classical path reports the first user in dictionary order within
      the tolerance, with confidence one minus the distance; a user reported
      is enrolled; and it reports no user only when none matches. */
  lemma ClassicalSpec(lib: FaceLibrary, encodings: Dict<string, Encoding>, image: Image)
    requires encodings.Valid()
    ensures var r := Classical(lib, encodings, image);
      var locations := lib.locate(image);
      (locations == [] <==> r == RecognizeFailed(NoFace)) &&
      (r.Recognized? ==>
        var probe := lib.encode(image, locations[0]);
        exists i :: 0 <= i < |encodings.keys| && encodings.keys[i] == r.user &&
          Matches(lib, encodings.entries[r.user], probe) &&
          r.confidence == 1.0 - lib.distance(encodings.entries[r.user], probe) &&
          forall j :: 0 <= j < i ==> !Matches(lib, encodings.entries[encodings.keys[j]], probe)) &&
      (r == NotRecognized ==>
        locations != [] &&
        forall u :: u in encodings.entries ==> !Matches(lib, encodings.entries[u], lib.encode(image, locations[0])))
  {
  }

  /** What the service answers from the classifier's result list: the first entry, if any. */
  function FromClassifier(res: Result<seq<FaceResult>>): (r: Recognition)
    ensures res.Err? ==> r == Raised(res.error)
    ensures res.Ok? && res.value != [] ==> r == Recognized(res.value[0].id, res.value[0].confidence)
    ensures res.Ok? && res.value == [] ==> r == NotRecognized
  {
    match res
    case Err(e) => Raised(e)
    case Ok(rs) => if rs != [] then Recognized(rs[0].id, rs[0].confidence) else NotRecognized
  }

  /** The network `train_model` leaves when training and fine-tuning run: the
      last four base layers unfrozen, the fine-tuning learning rate, and the
      15-epoch and 5-epoch runs on the training directory. */
  function Tuned(net: Network, dir: string): (r: Network)
    ensures |r.baseTrainable| == |net.baseTrainable| && r.outputs == net.outputs
    ensures forall i :: 0 <= i < |net.baseTrainable| ==>
      (r.baseTrainable[i] <==> net.baseTrainable[i] || i >= |net.baseTrainable| - FineTuneLayers)
    ensures r.learningRate == FineTuneLearningRate
    ensures r.fits == net.fits + [Fit(dir, None, TrainEpochs, TrainBatchSize), Fit(dir, None, FineTuneEpochs, TrainBatchSize)]
  {
    Network(Unfreeze(net.baseTrainable, FineTuneLayers), net.outputs, FineTuneLearningRate,
            net.fits + [Fit(dir, None, TrainEpochs, TrainBatchSize)] + [Fit(dir, None, FineTuneEpochs, TrainBatchSize)])
  }

  class FaceRecognitionService {
    /** `self.user_encodings`, in insertion order. */
    var userEncodings: Dict<string, Encoding>
    /** `self.model`: `null` until a classifier is loaded or trained. */
    var model: FaceRecognitionModel?
    /** The entries of the training-data directory (one sub-directory per enrolled user). */
    var dataDir: set<string>
    /** The pickled encodings written to the encodings directory, by file name. */
    var savedEncodings: map<string, Encoding>
    /** Saved classifiers, by path. */
    var disk: map<string, Artifact>
    const modelPath: string
    const dataDirPath: string

    ghost predicate Valid()
      reads this, model
    {
      userEncodings.Valid() && modelPath != "" &&
      (model != null ==> model.Valid()) &&
      (forall p :: p in disk && disk[p].classes.Some? ==> disk[p].classes.value.Valid())
    }

    /** `__init__`: load the saved encodings, then the saved classifier if its path exists. */
    constructor (modelPath: string, dataDirPath: string, listing: seq<EncodingFile>,
                 dataDir: set<string>, savedEncodings: map<string, Encoding>, disk: map<string, Artifact>)
      requires modelPath != ""
      requires forall p :: p in disk && disk[p].classes.Some? ==> disk[p].classes.value.Valid()
      ensures Valid()
      ensures userEncodings == LoadAll(Empty(), listing)
      ensures this.dataDir == dataDir && this.disk == disk && this.savedEncodings == savedEncodings
      ensures this.modelPath == modelPath && this.dataDirPath == dataDirPath
      ensures (model != null) == (modelPath in disk)
      ensures model != null ==>
        fresh(model) && model.network == Some(disk[modelPath].network) &&
        model.modelPath == Some(modelPath) && model.numClasses.None? &&
        model.classes == disk[modelPath].classes &&
        (model.classes.Some? ==> model.classIndices == Some(Invert(model.classes.value))) &&
        (model.classes.None? ==> model.classIndices.None?)
    {
      this.modelPath := modelPath;
      this.dataDirPath := dataDirPath;
      this.dataDir := dataDir;
      this.savedEncodings := savedEncodings;
      this.disk := disk;
      userEncodings := Empty();
      model := null;
      new;
      LoadEncodings(listing);
      if modelPath in disk {
        model := new FaceRecognitionModel(Some(modelPath), None, disk);
      }
    }

    /** `load_encodings`: store each `.pkl` file that unpickles under its user id, in listing order. */
    method LoadEncodings(listing: seq<EncodingFile>)
      requires Valid()
      modifies this`userEncodings
      ensures Valid()
      ensures userEncodings == LoadAll(old(userEncodings), listing)
    {
      var i := 0;
      while i < |listing|
        invariant 0 <= i <= |listing|
        invariant userEncodings == LoadAll(old(userEncodings), listing[..i])
        invariant Valid()
      {
        assert listing[..i + 1][..i] == listing[..i];
        var f := listing[i];
        if EndsWith(f.name, PickleSuffix) {
          var userId := UserIdOf(f.name);
          if f.content.Some? {
            userEncodings := Put(userEncodings, userId, f.content.value);
          }
        }
        i := i + 1;
      }
      assert listing[..i] == listing;
    }

    /** `register_user`: enrol the encoding of the first face found, replacing
        any earlier one for the same user; an unreadable image or one without a
        face changes nothing. */
    method RegisterUser(userId: string, image: Option<Image>, lib: FaceLibrary) returns (r: Enrolment)
      requires Valid()
      modifies this`userEncodings, this`savedEncodings, this`dataDir
      ensures Valid()
      ensures image.None? ==> r == EnrolFailed(ReadFailed) && unchanged(this)
      ensures image.Some? && lib.locate(image.value) == [] ==> r == EnrolFailed(NoFace) && unchanged(this)
      ensures image.Some? && lib.locate(image.value) != [] ==>
        var enc := lib.encode(image.value, lib.locate(image.value)[0]);
        r == Registered("User " + userId + " registered successfully") &&
        userEncodings == Put(old(userEncodings), userId, enc) &&
        savedEncodings == old(savedEncodings)[EncodingFileName(userId) := enc] &&
        dataDir == old(dataDir) + {userId}
    {
      if image.None? {
        return EnrolFailed(ReadFailed);
      }
      var locations := lib.locate(image.value);
      if locations == [] {
        return EnrolFailed(NoFace);
      }
      var encoding := lib.encode(image.value, locations[0]);
      savedEncodings := savedEncodings[EncodingFileName(userId) := encoding];
      userEncodings := Put(userEncodings, userId, encoding);
      dataDir := dataDir + {userId};
      r := Registered("User " + userId + " registered successfully");
    }

    /** What `recognize_face` answers: a read failure, the classifier's first
        result when deep learning is asked for and a classifier is present,
        else the classical answer. */
    function RecognitionOf(image: Option<Image>, useDeepLearning: bool, lib: FaceLibrary, detector: Detector): Recognition
      reads this, model
      requires Valid()
    {
      if image.None? then RecognizeFailed(ReadFailed)
      else if useDeepLearning && model != null then
        FromClassifier(if model.network.None? then Err(NotLoaded)
                       else Scan(model.network.value, model.classes, image.value,
                                 detector.detect(image.value), DefaultThreshold, detector))
      else Classical(lib, userEncodings, image.value)
    }

    /** `recognize_face`: the classifier when asked for and present, else the
        first enrolled user within the tolerance. */
    method RecognizeFace(image: Option<Image>, useDeepLearning: bool, lib: FaceLibrary, detector: Detector)
      returns (r: Recognition)
      requires Valid()
      ensures image.None? ==> r == RecognizeFailed(ReadFailed)
      ensures image.Some? && useDeepLearning && model != null ==>
        r == FromClassifier(if model.network.None? then Err(NotLoaded)
                            else Scan(model.network.value, model.classes, image.value,
                                      detector.detect(image.value), DefaultThreshold, detector))
      ensures image.Some? && !(useDeepLearning && model != null) ==> r == Classical(lib, userEncodings, image.value)
      ensures r == RecognitionOf(image, useDeepLearning, lib, detector)
    {
      if image.None? {
        return RecognizeFailed(ReadFailed);
      }
      var img := image.value;
      if useDeepLearning && model != null {
        var results := model.RecognizeFace(img, DefaultThreshold, detector);
        return FromClassifier(results);
      }
      var locations := lib.locate(img);
      if locations == [] {
        return RecognizeFailed(NoFace);
      }
      var probe := lib.encode(img, locations[0]);
      var users := userEncodings.keys;
      var i := 0;
      while i < |users|
        invariant 0 <= i <= |users|
        invariant forall j :: 0 <= j < i ==> !Matches(lib, userEncodings.entries[users[j]], probe)
      {
        var stored := userEncodings.entries[users[i]];
        if lib.distance(stored, probe) <= Tolerance {
          var distance := lib.distance(stored, probe);
          var m := FirstMatch(lib, users, userEncodings.entries, probe);
          assert m == Some(i) by {
            if m.None? || m.value != i { assert Matches(lib, stored, probe); }
          }
          return Recognized(users[i], 1.0 - distance);
        }
        i := i + 1;
      }
      r := NotRecognized;
    }

    /** The network `train_model` trains: a fresh one for the user directories
        when there is no classifier or retraining is forced, else the current
        classifier's. */
    function StartNetwork(forceRetrain: bool): Option<Network>
      reads this, model
    {
      if model == null || forceRetrain then Some(Built(|dataDir|)) else model.network
    }

    /** What `train_model` answers when fine-tuning works as intended: too few
        users, a classifier without a network, or success. */
    function ExpectedTraining(forceRetrain: bool): (r: Training)
      reads this, model
      ensures r.TrainSucceeded? <==> |dataDir| >= 2 && StartNetwork(forceRetrain).Some?
      ensures |dataDir| < 2 ==> r == TrainFailed(TooFewUsers)
      ensures r.TrainSucceeded? ==> r.message == TrainedMessage
    {
      if |dataDir| < 2 then TrainFailed(TooFewUsers)
      else if StartNetwork(forceRetrain).None? then TrainFailed("Training failed: " + NotInitialized)
      else TrainSucceeded(TrainedMessage)
    }

    /** The part of `train_model` before fine-tuning: refuse with fewer than
        two training directories and change nothing; otherwise replace the
        classifier by a fresh one when there is none or when forced, then
        train it for 15 epochs. `None` when training ran. */
    method Prepare(forceRetrain: bool, found: Dict<string, int>) returns (failure: Option<Training>)
      requires Valid() && found.Valid()
      modifies this`model, model
      ensures Valid()
      ensures |old(dataDir)| < 2 ==>
        failure == Some(TrainFailed(TooFewUsers)) && model == old(model) && (model != null ==> unchanged(model))
      ensures |old(dataDir)| >= 2 ==>
        model != null &&
        ((old(model) == null || forceRetrain) <==> model != old(model)) &&
        (model != old(model) ==> fresh(model))
      ensures |old(dataDir)| >= 2 && old(StartNetwork(forceRetrain)).None? ==>
        failure == Some(TrainFailed("Training failed: " + NotInitialized)) && model == old(model) && unchanged(model)
      ensures |old(dataDir)| >= 2 && old(StartNetwork(forceRetrain)).Some? ==>
        var net := old(StartNetwork(forceRetrain)).value;
        failure.None? &&
        model.network == Some(net.(fits := net.fits + [Fit(dataDirPath, None, TrainEpochs, TrainBatchSize)])) &&
        model.classIndices == Some(found) && model.classes == Some(Invert(found))
    {
      if |dataDir| < 2 {
        return Some(TrainFailed(TooFewUsers));
      }
      var numClasses := |dataDir|;
      if model == null || forceRetrain {
        model := new FaceRecognitionModel(None, Some(numClasses), disk);
      }
      var trained := model.Train(dataDirPath, None, TrainEpochs, TrainBatchSize, found);
      if trained.Err? {
        return Some(TrainFailed("Training failed: " + trained.error));
      }
      failure := None;
    }

    /** `train_model` with fine-tuning as intended: after training, fine-tune
        for 5 epochs with the last four base layers unfrozen, and save the
        classifier and its class map at the model path. */
    method TrainModel(forceRetrain: bool, found: Dict<string, int>) returns (r: Training)
      requires Valid() && found.Valid()
      modifies this`model, this`disk, model
      ensures Valid()
      ensures r == old(ExpectedTraining(forceRetrain))
      ensures r.TrainFailed? ==> disk == old(disk)
      ensures |old(dataDir)| < 2 ==> model == old(model) && (model != null ==> unchanged(model))
      ensures |old(dataDir)| >= 2 ==>
        model != null &&
        ((old(model) == null || forceRetrain) <==> model != old(model)) &&
        (model != old(model) ==> fresh(model))
      ensures |old(dataDir)| >= 2 && old(StartNetwork(forceRetrain)).None? ==> model == old(model) && unchanged(model)
      ensures |old(dataDir)| >= 2 && old(StartNetwork(forceRetrain)).Some? ==>
        model.network == Some(Tuned(old(StartNetwork(forceRetrain)).value, dataDirPath)) &&
        model.classIndices == Some(found) && model.classes == Some(Invert(found)) &&
        disk == old(disk)[modelPath := Artifact(model.network.value, model.classes)]
    {
      var failure := Prepare(forceRetrain, found);
      if failure.Some? {
        return failure.value;
      }
      // Once `train` has run, the network and the class map exist, so neither
      // fine-tuning nor `save_model` raises one of the classifier's own errors.
      var tuned := model.FineTuneBase(dataDirPath, None, FineTuneEpochs, TrainBatchSize, found);
      assert tuned.Ok?;
      var saved := model.SaveModel(Some(modelPath));
      assert saved.Ok?;
      disk := disk[saved.value.0 := saved.value.1];
      r := TrainSucceeded(TrainedMessage);
    }

    /** `train_model` as written: `fine_tune` raises on every classifier with a
        network (`FaceRecognitionModel.FineTune`), and the handler turns that
        into a failure. So the answer is never a success: with two or more
        users the classifier has been trained for 15 epochs, is neither
        fine-tuned nor saved, and the answer names the missing attribute. */
    method TrainModelAsWritten(forceRetrain: bool, found: Dict<string, int>) returns (r: Training)
      requires Valid() && found.Valid()
      modifies this`model, model
      ensures Valid()
      ensures r.TrainFailed? && disk == old(disk)
      ensures |old(dataDir)| < 2 ==>
        r == TrainFailed(TooFewUsers) && model == old(model) && (model != null ==> unchanged(model))
      ensures |old(dataDir)| >= 2 ==>
        model != null &&
        ((old(model) == null || forceRetrain) <==> model != old(model)) &&
        (model != old(model) ==> fresh(model))
      ensures |old(dataDir)| >= 2 && old(StartNetwork(forceRetrain)).None? ==>
        r == TrainFailed("Training failed: " + NotInitialized) && model == old(model) && unchanged(model)
      ensures |old(dataDir)| >= 2 && old(StartNetwork(forceRetrain)).Some? ==>
        var net := old(StartNetwork(forceRetrain)).value;
        r == TrainFailed("Training failed: " + NoLayersAttribute) &&
        model.network == Some(net.(fits := net.fits + [Fit(dataDirPath, None, TrainEpochs, TrainBatchSize)])) &&
        model.classIndices == Some(found) && model.classes == Some(Invert(found))
    {
      var failure := Prepare(forceRetrain, found);
      if failure.Some? {
        return failure.value;
      }
      var tuned := model.FineTune(dataDirPath, None, FineTuneEpochs, TrainBatchSize);
      r := TrainFailed("Training failed: " + tuned.error);
    }
  }
}
