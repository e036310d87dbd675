/** The deep-learning face classifier (`FaceRecognitionModel`): a VGG16 base
    with a softmax head, the class-index maps learnt from the training
    directory, saving and loading, and the per-face recognition loop. The
    Keras network itself is abstract: what is kept of it is the trainable flag
    of each base layer, the number of classes, the learning rate and the list
    of training runs it has been through. */
module FaceModel {
  import opened Wrappers
  import opened Dicts
  import opened Vision

  /** Layers of VGG16 without its top (the input layer, 13 convolutions, 5 poolings). */
  const BaseLayerCount: nat := 19
  /** How many of the last base layers `fine_tune` unfreezes. */
  const FineTuneLayers: nat := 4
  const BuildLearningRate: real := 0.0001
  const FineTuneLearningRate: real := 0.00001
  /** The default `confidence_threshold` of `recognize_face`. */
  const DefaultThreshold: real := 0.7

  const NotInitialized := "Model not initialized. Call build_model first."
  const NothingToSave := "No model to save."
  const NoSavePath := "No path specified to save the model."
  const NoLoadPath := "No path specified to load the model from."
  const NotLoaded := "Model not loaded. Call load_model first."
  const NoClasses := "'FaceRecognitionModel' object has no attribute 'classes'"
  const EmptyArgMax := "attempt to get argmax of an empty sequence"
  const UnknownClass := "KeyError"
  const NoSavedModel := "No file or directory found at the model path"
  /** What `fine_tune` raises when it reaches into the input layer for `layers`. */
  const NoLayersAttribute := "'InputLayer' object has no attribute 'layers'"

  /** One call of Keras `fit`. */
  datatype Fit = Fit(trainDir: string, validationDir: Option<string>, epochs: int, batchSize: int)

  /** The Keras network, as far as the code observes it. */
  datatype Network = Network(baseTrainable: seq<bool>, outputs: int, learningRate: real, fits: seq<Fit>)

  /** What `save_model` writes at a path: the network and, in `<path>_classes.pkl`,
      the class map (absent when that file does not exist). */
  datatype Artifact = Artifact(network: Network, classes: Option<Dict<int, string>>)

  /** The OpenCV Haar cascade and the network's `predict` on one preprocessed face. */
  datatype Detector = Detector(detect: Image -> seq<Box>, predict: (Network, Image, Box) -> seq<real>)

  /** One entry of the list `recognize_face` returns. */
  datatype FaceResult = FaceResult(id: string, confidence: real, box: Box)

  /** Python truthiness of an optional path: `None` and `''` are false. */
  predicate Truthy(p: Option<string>) {
    p.Some? && p.value != ""
  }

  /** The path `save_model`/`load_model` use: the argument, else the model's own path. */
  function ResolvePath(filepath: Option<string>, modelPath: Option<string>): (r: Option<string>)
    ensures r.Some? <==> Truthy(filepath) || Truthy(modelPath)
    ensures r.Some? ==> r.value != ""
    ensures Truthy(filepath) ==> r == filepath
    ensures !Truthy(filepath) && Truthy(modelPath) ==> r == modelPath
  {
    if Truthy(filepath) then filepath
    else if Truthy(modelPath) then modelPath
    else None
  }

  /** The network `build_model` creates: every base layer frozen, `n` outputs. */
  function Built(n: int): (net: Network)
    ensures |net.baseTrainable| == BaseLayerCount
    ensures forall i :: 0 <= i < BaseLayerCount ==> !net.baseTrainable[i]
    ensures net.outputs == n && net.fits == []
  {
    Network(seq(BaseLayerCount, _ => false), n, BuildLearningRate, [])
  }

  /** `for layer in layers[-k:]: layer.trainable = True`. */
  function Unfreeze(flags: seq<bool>, k: nat): (r: seq<bool>)
    ensures |r| == |flags|
    ensures forall i :: 0 <= i < |flags| ==> r[i] == (flags[i] || i >= |flags| - k)
  {
    seq(|flags|, i requires 0 <= i < |flags| => flags[i] || i >= |flags| - k)
  }

  /** After fine-tuning a freshly built network, exactly the last four base layers train. */
  lemma FineTuneBuilt(n: int)
    ensures var flags := Unfreeze(Built(n).baseTrainable, FineTuneLayers);
      forall i :: 0 <= i < BaseLayerCount ==> (flags[i] <==> i >= BaseLayerCount - FineTuneLayers)
  {
  }

  /** `np.argmax`: the first index of a maximal element. */
  function ArgMax(p: seq<real>): (r: nat)
    requires |p| > 0
    ensures r < |p|
    ensures forall j :: 0 <= j < |p| ==> p[j] <= p[r]
    ensures forall j :: 0 <= j < r ==> p[j] < p[r]
  {
    if |p| == 1 then 0
    else
      var m := ArgMax(p[..|p| - 1]);
      if p[|p| - 1] > p[m] then |p| - 1 else m
  }

  /** What the loop of `recognize_face` does with one detected face: an error
      (empty prediction, or a class the map lacks), nothing (below the
      threshold), or one result. */
  function Classify(predictions: seq<real>, classes: Option<Dict<int, string>>,
                    threshold: real, box: Box): (r: Result<Option<FaceResult>>)
    ensures predictions == [] ==> r == Err(EmptyArgMax)
    ensures r.Ok? && r.value.Some? ==>
      var m := ArgMax(predictions);
      predictions[m] >= threshold && classes.Some? && m in classes.value.entries &&
      r.value.value == FaceResult(classes.value.entries[m], predictions[m], box)
    ensures r.Ok? && r.value.None? ==> predictions[ArgMax(predictions)] < threshold
  {
    if predictions == [] then Err(EmptyArgMax)
    else
      var m := ArgMax(predictions);
      var confidence := predictions[m];
      if confidence >= threshold then
        if classes.None? then Err(NoClasses)
        else if m !in classes.value.entries then Err(UnknownClass)
        else Ok(Some(FaceResult(classes.value.entries[m], confidence, box)))
      else Ok(None)
  }

  /** The results of `recognize_face` over the first faces detected, in detection order. */
  function Scan(net: Network, classes: Option<Dict<int, string>>, image: Image,
                faces: seq<Box>, threshold: real, detector: Detector): Result<seq<FaceResult>>
  {
    if faces == [] then Ok([])
    else
      match Scan(net, classes, image, faces[..|faces| - 1], threshold, detector)
      case Err(e) => Err(e)
      case Ok(rs) =>
        match Classify(detector.predict(net, image, faces[|faces| - 1]), classes, threshold, faces[|faces| - 1])
        case Err(e) => Err(e)
        case Ok(None) => Ok(rs)
        case Ok(Some(x)) => Ok(rs + [x])
  }

  /** The faces whose best prediction reaches the threshold, in detection order. */
  function Passing(net: Network, image: Image, faces: seq<Box>, threshold: real, detector: Detector): seq<Box>
  {
    if faces == [] then []
    else
      var p := detector.predict(net, image, faces[|faces| - 1]);
      Passing(net, image, faces[..|faces| - 1], threshold, detector) +
        (if p != [] && p[ArgMax(p)] >= threshold then [faces[|faces| - 1]] else [])
  }

  /** The result of classifying one passing face. */
  function Hit(net: Network, classes: Dict<int, string>, image: Image, box: Box, detector: Detector): FaceResult
    requires detector.predict(net, image, box) != []
    requires ArgMax(detector.predict(net, image, box)) in classes.entries
  {
    var p := detector.predict(net, image, box);
    FaceResult(classes.entries[ArgMax(p)], p[ArgMax(p)], box)
  }

  /** A successful recognition returns one result per passing face and no
      other, in detection order; each carries the class of the largest
      prediction, that prediction as its confidence, and the face's box. */
  lemma {:induction false} ScanResults(net: Network, classes: Option<Dict<int, string>>, image: Image,
                                       faces: seq<Box>, threshold: real, detector: Detector)
    requires Scan(net, classes, image, faces, threshold, detector).Ok?
    ensures var rs := Scan(net, classes, image, faces, threshold, detector).value;
      var pass := Passing(net, image, faces, threshold, detector);
      |rs| == |pass| <= |faces| &&
      forall k :: 0 <= k < |rs| ==>
        rs[k].box == pass[k] && rs[k].confidence >= threshold &&
        var p := detector.predict(net, image, pass[k]);
        p != [] && classes.Some? && ArgMax(p) in classes.value.entries &&
        rs[k] == Hit(net, classes.value, image, pass[k], detector)
  {
    if faces != [] {
      ScanResults(net, classes, image, faces[..|faces| - 1], threshold, detector);
    }
  }

  /** Recognition fails only on an empty prediction or, for a face that
      reaches the threshold, on a class that the class map does not hold. */
  lemma {:induction false} ScanSucceeds(net: Network, classes: Option<Dict<int, string>>, image: Image,
                                        faces: seq<Box>, threshold: real, detector: Detector)
    requires forall i :: 0 <= i < |faces| ==> detector.predict(net, image, faces[i]) != []
    requires forall i :: 0 <= i < |faces| ==>
      var p := detector.predict(net, image, faces[i]);
      p[ArgMax(p)] >= threshold ==> classes.Some? && ArgMax(p) in classes.value.entries
    ensures Scan(net, classes, image, faces, threshold, detector).Ok?
  {
    if faces != [] {
      ScanSucceeds(net, classes, image, faces[..|faces| - 1], threshold, detector);
    }
  }

  /** An error met on the first faces is the error of the whole scan. */
  lemma {:induction false} ScanErrSticks(net: Network, classes: Option<Dict<int, string>>, image: Image,
                                         faces: seq<Box>, n: nat, threshold: real, detector: Detector)
    requires n <= |faces|
    requires Scan(net, classes, image, faces[..n], threshold, detector).Err?
    ensures Scan(net, classes, image, faces, threshold, detector) == Scan(net, classes, image, faces[..n], threshold, detector)
    decreases |faces| - n
  {
    if n < |faces| {
      assert faces[..n + 1][..n] == faces[..n];
      ScanErrSticks(net, classes, image, faces, n + 1, threshold, detector);
    } else {
      assert faces[..n] == faces;
    }
  }

  class FaceRecognitionModel {
    var modelPath: Option<string>
    var numClasses: Option<int>
    /** `self.model`: `None` until built or loaded. */
    var network: Option<Network>
    /** `self.classes` (index to class name) and `self.class_indices` (its inverse);
        `None` while the attribute has not been set. */
    var classes: Option<Dict<int, string>>
    var classIndices: Option<Dict<string, int>>

    ghost predicate Valid()
      reads this
    {
      (classes.Some? ==> classes.value.Valid()) &&
      (classIndices.Some? ==> classIndices.value.Valid()) &&
      (classes.Some? <==> classIndices.Some?)
    }

    /** `__init__`: load the saved model when its path exists, else build one
        when a class count is given, else stay empty. */
    constructor (modelPath: Option<string>, numClasses: Option<int>, disk: map<string, Artifact>)
      requires forall p :: p in disk && disk[p].classes.Some? ==> disk[p].classes.value.Valid()
      ensures Valid()
      ensures this.modelPath == modelPath && this.numClasses == numClasses
      ensures Truthy(modelPath) && modelPath.value in disk ==>
        network == Some(disk[modelPath.value].network) &&
        classes == disk[modelPath.value].classes &&
        (classes.Some? ==> classIndices == Some(Invert(classes.value)))
      ensures !(Truthy(modelPath) && modelPath.value in disk) ==>
        classes.None? && classIndices.None? &&
        network == (if numClasses.Some? && numClasses.value != 0 then Some(Built(numClasses.value)) else None)
    {
      this.modelPath := modelPath;
      this.numClasses := numClasses;
      network := None;
      classes := None;
      classIndices := None;
      new;
      if Truthy(modelPath) && modelPath.value in disk {
        var _ := LoadModel(None, disk);
      } else if numClasses.Some? && numClasses.value != 0 {
        BuildModel(numClasses.value);
      }
    }

    /** `build_model`: a fresh network with a frozen base and `n` outputs. */
    method BuildModel(n: int)
      requires Valid()
      modifies this`network
      ensures Valid()
      ensures network == Some(Built(n))
    {
      network := Some(Built(n));
    }

    /** `train`: refuse without a network; otherwise run `fit` and take the
        class indices the directory iterator found, with `classes` their inverse. */
    method Train(trainDir: string, validationDir: Option<string>, epochs: int, batchSize: int,
                 found: Dict<string, int>) returns (r: Result<Network>)
      requires Valid() && found.Valid()
      modifies this`network, this`classes, this`classIndices
      ensures Valid()
      ensures old(network).None? ==> r == Err(NotInitialized) && unchanged(this)
      ensures old(network).Some? ==>
        var net := old(network).value;
        network == Some(net.(fits := net.fits + [Fit(trainDir, validationDir, epochs, batchSize)])) &&
        r == Ok(network.value) &&
        classIndices == Some(found) && classes == Some(Invert(found))
    {
      if network.None? {
        return Err(NotInitialized);
      }
      var net := network.value;
      network := Some(net.(fits := net.fits + [Fit(trainDir, validationDir, epochs, batchSize)]));
      classIndices := Some(found);
      classes := Some(Invert(found));
      r := Ok(network.value);
    }

    /** `fine_tune` as written: refuse without a network; otherwise take
        `self.model.layers[0]` as the base model. In the functional model that
        `build_model` creates and `load_model` restores, that layer is the
        input layer, which has no `layers`: the call raises before any layer
        is unfrozen and before any training, and nothing changes. */
    method FineTune(trainDir: string, validationDir: Option<string>, epochs: int, batchSize: int)
      returns (r: Result<Network>)
      requires Valid()
      ensures r.Err?
      ensures network.None? ==> r == Err(NotInitialized)
      ensures network.Some? ==> r == Err(NoLayersAttribute)
    {
      if network.None? {
        return Err(NotInitialized);
      }
      r := Err(NoLayersAttribute);
    }

    /** `fine_tune` as intended, with the VGG16 base as the base model:
        refuse without a network; otherwise unfreeze the last four base
        layers, lower the learning rate, and train. */
    method FineTuneBase(trainDir: string, validationDir: Option<string>, epochs: int, batchSize: int,
                        found: Dict<string, int>) returns (r: Result<Network>)
      requires Valid() && found.Valid()
      modifies this`network, this`classes, this`classIndices
      ensures Valid()
      ensures old(network).None? ==> r == Err(NotInitialized) && unchanged(this)
      ensures old(network).Some? ==>
        var net := old(network).value;
        network == Some(Network(Unfreeze(net.baseTrainable, FineTuneLayers), net.outputs,
                                FineTuneLearningRate, net.fits + [Fit(trainDir, validationDir, epochs, batchSize)])) &&
        r == Ok(network.value) &&
        classIndices == Some(found) && classes == Some(Invert(found))
    {
      if network.None? {
        return Err(NotInitialized);
      }
      var net := network.value;
      network := Some(net.(baseTrainable := Unfreeze(net.baseTrainable, FineTuneLayers),
                           learningRate := FineTuneLearningRate));
      r := Train(trainDir, validationDir, epochs, batchSize, found);
    }

    /** `save_model`: the path written to and what is written there. */
    method SaveModel(filepath: Option<string>) returns (r: Result<(string, Artifact)>)
      requires Valid()
      ensures network.None? ==> r == Err(NothingToSave)
      ensures network.Some? && ResolvePath(filepath, modelPath).None? ==> r == Err(NoSavePath)
      ensures network.Some? && ResolvePath(filepath, modelPath).Some? && classes.None? ==> r == Err(NoClasses)
      ensures r.Ok? <==> network.Some? && ResolvePath(filepath, modelPath).Some? && classes.Some?
      ensures r.Ok? ==> r.value == (ResolvePath(filepath, modelPath).value, Artifact(network.value, classes))
    {
      if network.None? {
        return Err(NothingToSave);
      }
      var path := ResolvePath(filepath, modelPath);
      if path.None? {
        return Err(NoSavePath);
      }
      if classes.None? {
        return Err(NoClasses);
      }
      r := Ok((path.value, Artifact(network.value, classes)));
    }

    /** `load_model`: read the network saved at the resolved path and, when
        its class file exists, the class map, rebuilding `class_indices` as its inverse. */
    method LoadModel(filepath: Option<string>, disk: map<string, Artifact>) returns (r: Result<Network>)
      requires Valid()
      requires forall p :: p in disk && disk[p].classes.Some? ==> disk[p].classes.value.Valid()
      modifies this`network, this`classes, this`classIndices
      ensures Valid()
      ensures ResolvePath(filepath, modelPath).None? ==> r == Err(NoLoadPath) && unchanged(this)
      ensures ResolvePath(filepath, modelPath).Some? && ResolvePath(filepath, modelPath).value !in disk ==>
        r == Err(NoSavedModel) && unchanged(this)
      ensures ResolvePath(filepath, modelPath).Some? && ResolvePath(filepath, modelPath).value in disk ==>
        var a := disk[ResolvePath(filepath, modelPath).value];
        network == Some(a.network) && r == Ok(a.network) &&
        (a.classes.Some? ==> classes == a.classes && classIndices == Some(Invert(a.classes.value))) &&
        (a.classes.None? ==> classes == old(classes) && classIndices == old(classIndices))
    {
      var path := ResolvePath(filepath, modelPath);
      if path.None? {
        return Err(NoLoadPath);
      }
      if path.value !in disk {
        return Err(NoSavedModel);
      }
      var a := disk[path.value];
      network := Some(a.network);
      if a.classes.Some? {
        classes := a.classes;
        classIndices := Some(Invert(a.classes.value));
      }
      r := Ok(a.network);
    }

    /** `recognize_face`: refuse without a network; otherwise classify each
        detected face in turn, keeping those whose best prediction reaches the threshold. */
    method RecognizeFace(image: Image, threshold: real, detector: Detector) returns (r: Result<seq<FaceResult>>)
      requires Valid()
      ensures network.None? ==> r == Err(NotLoaded)
      ensures network.Some? ==> r == Scan(network.value, classes, image, detector.detect(image), threshold, detector)
    {
      if network.None? {
        return Err(NotLoaded);
      }
      var net := network.value;
      var faces := detector.detect(image);
      var results: seq<FaceResult> := [];
      var i := 0;
      while i < |faces|
        invariant 0 <= i <= |faces|
        invariant Scan(net, classes, image, faces[..i], threshold, detector) == Ok(results)
      {
        var face := faces[i];
        assert faces[..i + 1][..i] == faces[..i];
        var predictions := detector.predict(net, image, face);
        if predictions == [] {
          ScanErrSticks(net, classes, image, faces, i + 1, threshold, detector);
          return Err(EmptyArgMax);
        }
        var maxIndex := ArgMax(predictions);
        var confidence := predictions[maxIndex];
        if confidence >= threshold {
          if classes.None? {
            ScanErrSticks(net, classes, image, faces, i + 1, threshold, detector);
            return Err(NoClasses);
          }
          if maxIndex !in classes.value.entries {
            ScanErrSticks(net, classes, image, faces, i + 1, threshold, detector);
            return Err(UnknownClass);
          }
          results := results + [FaceResult(classes.value.entries[maxIndex], confidence, face)];
        }
        i := i + 1;
      }
      assert faces[..i] == faces;
      r := Ok(results);
    }
  }
}
