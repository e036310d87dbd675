/** The webcam component's camera selection and capture state: which video
    input it picks, which way it faces, and the screenshot it holds. */
module Webcam {
  import opened Wrappers
  import Text
  import Seqs

  const User: string := "user"
  const Environment: string := "environment"
  const VideoInput: string := "videoinput"
  const Width: nat := 1280
  const Height: nat := 720

  /** An entry of `navigator.mediaDevices.enumerateDevices()`; its `label` is `deviceLabel` here. */
  datatype MediaDevice = MediaDevice(kind: string, deviceLabel: string, deviceId: string)

  /** JavaScript truthiness of a string that may be `null`. */
  predicate Truthy(s: Option<string>) {
    s.Some? && s.value != []
  }

  function IsVideoInput(d: MediaDevice): bool {
    d.kind == VideoInput
  }

  /** `mediaDevices.filter(({kind}) => kind === "videoinput")`. */
  function VideoInputs(mediaDevices: seq<MediaDevice>): (r: seq<MediaDevice>)
    ensures forall d :: d in r <==> d in mediaDevices && d.kind == VideoInput
  {
    Seqs.Filter(mediaDevices, IsVideoInput)
  }

  /** The kept devices are exactly the video inputs, in their original order. */
  lemma VideoInputsExact(mediaDevices: seq<MediaDevice>) returns (idx: seq<nat>)
    ensures Seqs.Embedding(VideoInputs(mediaDevices), mediaDevices, idx)
    ensures forall i :: 0 <= i < |mediaDevices| ==> (i in idx <==> mediaDevices[i].kind == VideoInput)
  {
    idx := Seqs.FilterOrder(mediaDevices, IsVideoInput);
  }

  /** A label that names a rear camera. */
  predicate IsRear(d: MediaDevice) {
    Text.Contains(Text.Lower(d.deviceLabel), "back") || Text.Contains(Text.Lower(d.deviceLabel), "rear")
  }

  /** `videoDevices.find(...)`: the first rear camera. */
  function FindRear(devices: seq<MediaDevice>): (r: Option<nat>)
    ensures r.None? <==> forall i :: 0 <= i < |devices| ==> !IsRear(devices[i])
    ensures r.Some? ==> r.value < |devices| && IsRear(devices[r.value])
    ensures r.Some? ==> forall j :: 0 <= j < r.value ==> !IsRear(devices[j])
  {
    if devices == [] then None
    else if IsRear(devices[0]) then Some(0)
    else
      var r := FindRear(devices[1..]);
      assert forall i :: 0 < i < |devices| ==> devices[i] == devices[1..][i - 1];
      if r.Some? then Some(r.value + 1) else None
  }

  /** The selection `handleDevices` makes: a device already selected (truthy
      id) or an empty list leaves everything as it was; otherwise the first rear
      camera is chosen and the camera faces the environment, or failing that
      the first device is chosen and the facing mode is kept. */
  function Select(videos: seq<MediaDevice>, selected: Option<string>, facingMode: string): (Option<string>, string) {
    if |videos| > 0 && !Truthy(selected) then
      match FindRear(videos)
      case Some(i) => (Some(videos[i].deviceId), Environment)
      case None => (Some(videos[0].deviceId), facingMode)
    else (selected, facingMode)
  }

  /** The choice is either left alone or is the id of one of the video
      inputs: the first rear camera if any, else the first input. */
  lemma SelectSpec(videos: seq<MediaDevice>, selected: Option<string>, facingMode: string)
    ensures Truthy(selected) || videos == [] ==> Select(videos, selected, facingMode) == (selected, facingMode)
    ensures !Truthy(selected) && videos != [] ==>
      var (id, mode) := Select(videos, selected, facingMode);
      id.Some? &&
      (exists i :: 0 <= i < |videos| && videos[i].deviceId == id.value &&
        (forall j :: 0 <= j < i ==> !IsRear(videos[j])) &&
        (IsRear(videos[i]) ==> mode == Environment) &&
        (!IsRear(videos[i]) ==> i == 0 && mode == facingMode))
  {
    if !Truthy(selected) && videos != [] {
      match FindRear(videos)
      case Some(i) =>
      case None =>
        assert !IsRear(videos[0]);
    }
  }

  /** The facing mode after `toggleCamera`. */
  function Toggled(facingMode: string): (r: string)
    ensures r == User || r == Environment
    ensures r != facingMode
  {
    if facingMode == User then Environment else User
  }

  /** Toggling twice restores the facing mode. */
  lemma ToggleTwice(facingMode: string)
    requires facingMode == User || facingMode == Environment
    ensures Toggled(Toggled(facingMode)) == facingMode
  {
  }

  /** The `videoConstraints` passed to the webcam. */
  datatype Constraints = Constraints(width: nat, height: nat, facingMode: string, deviceId: Option<string>)

  function VideoConstraints(facingMode: string, selected: Option<string>): (r: Constraints)
    ensures r.deviceId.Some? <==> Truthy(selected)
    ensures r.deviceId.Some? ==> r.deviceId == selected
    ensures r.facingMode == facingMode && r.width == Width && r.height == Height
  {
    Constraints(Width, Height, facingMode, if Truthy(selected) then selected else None)
  }

  /** `mirrored={facingMode === "user"}`. */
  function Mirrored(facingMode: string): (r: bool)
    ensures r <==> facingMode == User
  {
    facingMode == User
  }

  class WebcamCapture {
    var devices: seq<MediaDevice>
    var selectedDeviceId: Option<string>
    var facingMode: string
    var imgSrc: Option<string>

    /** The facing mode is always one of the two the component uses. */
    ghost predicate Valid()
      reads this
    {
      facingMode == User || facingMode == Environment
    }

    constructor ()
      ensures Valid()
      ensures devices == [] && selectedDeviceId.None? && facingMode == User && imgSrc.None?
    {
      devices := [];
      selectedDeviceId := None;
      facingMode := User;
      imgSrc := None;
    }

    /** `handleDevices`: keep the video inputs and, if nothing is selected
        yet, choose one. */
    method HandleDevices(mediaDevices: seq<MediaDevice>)
      requires Valid()
      modifies this`devices, this`selectedDeviceId, this`facingMode
      ensures Valid()
      ensures devices == VideoInputs(mediaDevices)
      ensures (selectedDeviceId, facingMode) == Select(devices, old(selectedDeviceId), old(facingMode))
    {
      var videoDevices := VideoInputs(mediaDevices);
      devices := videoDevices;
      if |videoDevices| > 0 && !Truthy(selectedDeviceId) {
        var rearCamera := FindRear(videoDevices);
        if rearCamera.Some? {
          selectedDeviceId := Some(videoDevices[rearCamera.value].deviceId);
          facingMode := Environment;
        } else {
          selectedDeviceId := Some(videoDevices[0].deviceId);
        }
      }
    }

    /** `toggleCamera`: switch the facing mode and drop the screenshot. */
    method ToggleCamera()
      requires Valid()
      modifies this`facingMode, this`imgSrc
      ensures Valid()
      ensures facingMode == Toggled(old(facingMode)) && imgSrc.None?
    {
      facingMode := if facingMode == User then Environment else User;
      imgSrc := None;
    }

    /** `capture`: when the webcam is mounted (`hasWebcam`), store its
        screenshot and hand that same image to `onCapture`, if one was given;
        `delivered` is what `onCapture` received. */
    method Capture(hasWebcam: bool, screenshot: Option<string>, hasOnCapture: bool)
      returns (delivered: Option<Option<string>>)
      modifies this`imgSrc
      ensures hasWebcam ==> imgSrc == screenshot
      ensures !hasWebcam ==> imgSrc == old(imgSrc)
      ensures delivered.Some? <==> hasWebcam && hasOnCapture
      ensures delivered.Some? ==> delivered.value == imgSrc
    {
      delivered := None;
      if hasWebcam {
        var imageSrc := screenshot;
        imgSrc := imageSrc;
        if hasOnCapture {
          delivered := Some(imageSrc);
        }
      }
    }

    /** `retake`: drop the screenshot. */
    method Retake()
      modifies this`imgSrc
      ensures imgSrc.None?
    {
      imgSrc := None;
    }
  }
}
