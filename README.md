# Face attendance system — a Dafny model

This project models the core of a face-recognition attendance system:

- The Flask backend has four endpoints:
  - `/register` enrols a user's face;
  - `/recognize` recognises a face and appends an attendance record;
  - `/attendance` and `/users` list the records and the users;
  - `/train-model` trains the deep-learning classifier.
- The face service behind the backend, `FaceRecognitionService`, keeps the per-user face encodings and chooses between two recognition paths:
  - the classical path matches encodings by distance;
  - the deep-learning path uses the classifier.
- The Keras classifier is `FaceRecognitionModel`. It covers building, training, fine-tuning, saving, loading and per-face recognition.
- The React client is modelled in these parts:
  - the request helpers (`dataURLtoFile`, `registerUser`, `recognizeFace`);
  - the Dashboard's statistics and charts;
  - the Attendance page's search and statistics;
  - the Register form;
  - the webcam component's camera selection and capture.

The modules follow the source files:

| module | models |
|---|---|
| `App` (app.dfy) | `backend/app.py` |
| `ModelIntegration` (model_integration.dfy) | `backend/model_integration.py` |
| `FaceModel` (face_model.dfy) | `models/face_model.py` |
| `Api` (api.dfy) | `frontend/src/utils/api.js` |
| `RequestContract` (contract.dfy) | how the server reads what `api.js` sends |
| `Dashboard` (dashboard.dfy) | `frontend/src/pages/Dashboard.js` |
| `Attendance` (attendance.dfy) | `frontend/src/pages/Attendance.js` |
| `Register` (register.dfy) | `frontend/src/pages/Register.js` |
| `Webcam` (webcam.dfy) | `frontend/src/components/WebcamCapture.js` |
| `Vision` (vision.dfy) | the `face_recognition` library, as parameters |
| `Wrappers`, `Text`, `Dicts`, `Seqs` | shared building blocks |

## How the model is built

Objects whose methods update their fields are Dafny classes, with `modifies` frames:

- `Server` holds `registered_users` and `attendance_records`;
- `FaceRecognitionService` and `FaceRecognitionModel`;
- the `RegisterForm` and `WebcamCapture` component state.

Each state-changing method states its whole new state. Where the new state is a function of the old one, it is stated against a pure specification function, and the lemmas prove the properties of that function:

- `Register.Submit` specifies `handleRegister`;
- `Webcam.Select` specifies `handleDevices`;
- `ModelIntegration.LoadAll` specifies `load_encodings`;
- `Dashboard.Tally` specifies the per-user counting loop.

Python dictionaries and JavaScript objects keep insertion order. `Dicts.Dict` models them as a key sequence plus a map. This order is what makes several behaviours observable:

- "first match" in classical recognition;
- the `/users` order;
- the Dashboard's tie order among users with equal counts, through `Array.prototype.sort`, which is stable.

Libraries the code calls into are function-valued parameters:

- `face_recognition`: `face_locations`, `face_encodings` and `face_distance`;
- the OpenCV cascade and Keras `predict`;
- `atob`;
- the `Date` functions;
- the registration request of the Register page.

The Keras network is abstract. The model keeps only what the code observes of it:

- each base layer's trainable flag;
- the number of outputs;
- the learning rate;
- the list of `fit` runs it has been through.

Where the documented design of the system and the code differ, the model follows the code:

- Classical recognition reports the first enrolled user, in dictionary order, whose distance is within 0.6. It does not look for the closest one.
- Attendance records are kept and listed in the order appended. The Attendance page does not sort them.
- `train_model` installs a fresh model before training when there is none or when retraining is forced.
- Registering an existing user id again overwrites the earlier encoding and user entry.
- The Attendance search checks the *trimmed* term for emptiness but matches with the *untrimmed* lower-cased term.
- The encoding file of user `a.b` is `a.b.pkl`, which `load_encodings` reloads under `a`. `ModelIntegration.UserIdRoundTrip` states exactly when an id survives the round trip.

## Model

| member | source | states |
|---|---|---|
| App.Extension | backend/app.py:32 | there is an extension exactly when the name contains a dot, and the extension itself holds no dot (the text after the last dot) |
| App.AllowedFileIff | backend/app.py:31-32 | a file name is allowed if and only if it has a last dot after which the lower-cased text is png, jpg or jpeg |
| App.LastDotAllowed | backend/app.py:31-32 | a name whose text after its last dot is an allowed extension passes the check |
| App.LastDot | backend/app.py:32 | a dot with no dot after it is the position `rsplit('.', 1)` splits at |
| App.UseDeepLearning | backend/app.py:85 | a missing flag means false; a present one means true exactly when its lower-cased text is "true" |
| App.NameOf | backend/app.py:104 | a recognised user is recorded under the registered name, else under the user id |
| App.UserList | backend/app.py:142-149 | one {userId, name} entry per registered user, in registration order |
| App.UserListExact | backend/app.py:142-149 | every registered user is listed under its registered name, only registered users are listed, and no user twice |
| App.Server.constructor | backend/app.py:27-29 | the server starts with no attendance records and no registered users |
| App.Server.Register | backend/app.py:34-72 | 400 for a missing file or userId, an empty file name or a disallowed extension; 400 with the service's own error, "Failed to read image" or "No face detected in the image", when enrolment fails; on every 400 the registry and the face service are unchanged; otherwise 200 with the success message, the user stored under the form name (else the id) with photo `<userId>_<filename>`, and the service holding the first face's encoding, its pickle and the user's data directory |
| App.Server.Recognize | backend/app.py:74-132 | 400 for a missing or empty file or a disallowed extension; past the guards, the answer follows the service's recognition of the uploaded image with the parsed flag: its failure gives 400 with its error, an uncaught classifier error 500 with Flask's error page, no match 404, and a recognised user 200 with that user's id, registered name (else the id) and confidence, after exactly one record (id, name, now, confidence) is appended; records unchanged on every non-200 answer |
| App.Server.Attendance | backend/app.py:134-140 | 200 with every attendance record in the order appended |
| App.Server.Users | backend/app.py:142-149 | 200 with the registered users' list |
| App.Server.TrainModel | backend/app.py:151-167 | forceRetrain defaults to false; 200 with the service's message exactly when the service's training succeeds, else 400 with the service's error; nothing is saved on a failure, and on success the trained classifier is saved at the model path; with fewer than two users the model is unchanged, otherwise it is replaced exactly when absent or forced |
| ModelIntegration.UserIdOf | backend/model_integration.py:45 | the user id is the longest prefix of the file name without a dot, ending at the first dot |
| ModelIntegration.UserIdRoundTrip | backend/model_integration.py:45 | a user's encoding file is read back under the same id if and only if the id contains no dot |
| ModelIntegration.LoadAllKeys | backend/model_integration.py:38-54 | loading adds exactly the ids of the files that end in .pkl and unpickle, and keeps the keys already present |
| ModelIntegration.LoadAllLastWins | backend/model_integration.py:38-54 | the encoding kept for a user is that of the last loadable file named after them |
| ModelIntegration.LoadedIdsStep | backend/model_integration.py:43-51 | the loaded ids of a listing grow by one file's id exactly when that file is loadable |
| ModelIntegration.FirstMatch | backend/model_integration.py:123-135 | the index returned is the first user within the tolerance, every earlier user is outside it, and none is returned only when no user matches |
| ModelIntegration.ClassicalSpec | backend/model_integration.py:112-137 | the classical path fails exactly when no face is located; a reported user is enrolled, matches, comes first in dictionary order among the matches, and has confidence 1 - distance; no user is reported only when none matches |
| ModelIntegration.FromClassifier | backend/model_integration.py:100-110 | a classifier error propagates; otherwise the first result becomes the recognition, and an empty list means not recognised |
| ModelIntegration.FaceRecognitionService.constructor | backend/model_integration.py:12-36 | the encodings are loaded from the listing, and a classifier is loaded exactly when the model path exists; the loaded classifier has the saved network, the service's model path, the saved class map when its class file exists (else none), and `class_indices` as the map's inverse |
| ModelIntegration.FaceRecognitionService.LoadEncodings | backend/model_integration.py:38-54 | the new encodings are the old ones extended by the listing, in listing order |
| ModelIntegration.FaceRecognitionService.RegisterUser | backend/model_integration.py:56-90 | an unreadable image or one without a face fails and changes nothing; otherwise the first face's encoding replaces any earlier one, is pickled under `<userId>.pkl`, and the user's data directory exists |
| ModelIntegration.FaceRecognitionService.RecognizeFace | backend/model_integration.py:92-137 | an unreadable image fails; the classifier is used exactly when deep learning is asked for and a model is present; otherwise the classical answer; the first-match loop gives `RecognitionOf` of the same inputs |
| ModelIntegration.FaceRecognitionService.TrainModel | backend/model_integration.py:139-162 | with fine-tuning as intended: the answer is `ExpectedTraining` of the old state; with fewer than two user directories nothing changes; otherwise the model is replaced exactly when absent or forced; a classifier without a network fails and nothing changes; else the network is trained for 15 epochs and fine-tuned for 5 with the last four base layers unfrozen, takes the found class map and its inverse, and is saved with them at the model path, the only change to the saved models |
| ModelIntegration.FaceRecognitionService.TrainModelAsWritten | backend/model_integration.py:139-162 | as written, the answer is always a failure and nothing is saved; with two or more user directories and a network, the classifier is trained for 15 epochs and takes the class map, and the answer is "Training failed: 'InputLayer' object has no attribute 'layers'" |
| ModelIntegration.FaceRecognitionService.Prepare | backend/model_integration.py:141-152 | fewer than two user directories fail and change nothing; otherwise the classifier is replaced exactly when absent or forced, and training either fails for a missing network with nothing changed or adds the 15-epoch run and the class maps |
| ModelIntegration.FaceRecognitionService.ExpectedTraining | backend/model_integration.py:139-162 | training succeeds exactly when there are at least two user directories and the network to train exists, with the success message; fewer than two directories give the too-few-users error |
| ModelIntegration.Tuned | models/face_model.py:112-130 | after training and fine-tuning, a base layer trains exactly when it trained before or is among the last four, the outputs are kept, the learning rate is 1e-5, and the 15-epoch then 5-epoch runs are added |
| FaceModel.ResolvePath | models/face_model.py:137-141 | the path used is the argument when it is a non-empty string, else the model's own path when non-empty, else none |
| FaceModel.Built | models/face_model.py:25-51 | a built network has all 19 base layers frozen, the requested number of outputs and no training runs |
| FaceModel.Unfreeze | models/face_model.py:118-120 | a layer trains afterwards exactly when it trained before or is among the last k |
| FaceModel.FineTuneBuilt | models/face_model.py:112-130 | after fine-tuning a freshly built network, exactly the last four base layers train |
| FaceModel.ArgMax | models/face_model.py:214 | the index of the first maximal prediction |
| FaceModel.Classify | models/face_model.py:213-224 | an empty prediction is an error; a result is produced only at or above the threshold, with the class of the maximal prediction and that prediction as confidence; below the threshold, nothing |
| FaceModel.ScanResults | models/face_model.py:199-226 | a successful recognition returns exactly one result per face that reaches the threshold, in detection order, each with its class, confidence and box |
| FaceModel.ScanSucceeds | models/face_model.py:199-226 | recognition fails only on an empty prediction, or on a passing face whose class is missing from the class map |
| FaceModel.ScanErrSticks | models/face_model.py:208-218 | the first error raised while scanning the faces is the error of the whole call |
| FaceModel.FaceRecognitionModel.constructor | models/face_model.py:13-23 | loads the saved model when its path exists; otherwise builds one when a non-zero class count is given; otherwise stays empty |
| FaceModel.FaceRecognitionModel.BuildModel | models/face_model.py:25-51 | the network becomes a freshly built one |
| FaceModel.FaceRecognitionModel.Train | models/face_model.py:53-110 | without a network, an error and nothing changed; otherwise one more fit run, the found class indices, and classes as their inverse |
| FaceModel.FaceRecognitionModel.FineTune | models/face_model.py:112-120 | as written, always an error and nothing changes: without a network "Model not initialized"; with one, the missing `layers` attribute of the input layer |
| FaceModel.FaceRecognitionModel.FineTuneBase | models/face_model.py:112-130 | as intended: without a network, an error and nothing changed; otherwise the last four base layers are unfrozen, the learning rate is 1e-5, and one more fit run is added with the found class maps |
| FaceModel.FaceRecognitionModel.SaveModel | models/face_model.py:132-150 | the three error cases (no model, no path, no class map); it succeeds exactly when none applies, and then the network and class map are written at the resolved path |
| FaceModel.FaceRecognitionModel.LoadModel | models/face_model.py:152-171 | no path or no saved model is an error that changes nothing; otherwise the saved network, and when the class file exists the class map with class_indices its inverse |
| FaceModel.FaceRecognitionModel.RecognizeFace | models/face_model.py:199-226 | without a network, an error; otherwise the scan of the detected faces |
| Dicts.InvertInvolution | models/face_model.py:108 | inverting an injective class-index map twice gives it back, so `classes` and `class_indices` are mutual inverses |
| Dicts.InvertInjective | models/face_model.py:169 | the inverse of an injective map is injective |
| Dicts.FromItemsLastWins | models/face_model.py:108 | a dictionary comprehension keeps, for each key, the value of its last item |
| Api.ImageFile | frontend/src/utils/api.js:6-16 | fails exactly when the header has no `:...;` mime type or `atob` throws, and with which error; otherwise a file with the given name, the mime type, and one byte per decoded character, its code modulo 256 |
| Api.Bytes | frontend/src/utils/api.js:11-14 | one byte per character, its code modulo 256 |
| Api.DataUrlToFile | frontend/src/utils/api.js:6-16 | the array loop, filling from the last index down, makes exactly the file `ImageFile` describes |
| Api.MimeBetween | frontend/src/utils/api.js:8 | without line breaks, the mime type is the text between the first colon and the next semicolon, and there is none when no semicolon follows the first colon |
| Api.PayloadBetweenCommas | frontend/src/utils/api.js:7-9 | what atob receives is the text between the first and second comma |
| Api.Payload | frontend/src/utils/api.js:9 | the payload never holds a comma |
| Api.RegisterUser | frontend/src/utils/api.js:19-40 | throws the conversion's error when the image data does not convert; otherwise sends userId, name, and the file converted from the image data under the name `<userId>_photo.jpg` |
| Api.RecognizeFace | frontend/src/utils/api.js:43-63 | throws the conversion's error when the image data does not convert; otherwise sends the file converted from the image data under the name recognition.jpg, and the flag |
| RequestContract.FlagRoundTrip | frontend/src/utils/api.js:50 | the flag the client sends as text is read back by the server as the same boolean |
| RequestContract.GeneratedNamesAllowed | frontend/src/utils/api.js:26 | both file names the client generates pass the server's extension check |
| RequestContract.JpgAllowed | backend/app.py:31-32 | any name ending in .jpg is allowed |
| RequestContract.RegisterRequestAccepted | frontend/src/utils/api.js:19-33 | a registration the client sends passes every guard of /register, with the same user id, name and file |
| RequestContract.RecognizeRequestAccepted | frontend/src/utils/api.js:43-56 | a recognition the client sends passes every guard of /recognize, and the server reads back the same flag |
| Dashboard.TodayAttendance | frontend/src/pages/Dashboard.js:79-87 | keeps exactly the records stamped at or after the start of today |
| Dashboard.TodayAttendanceExact | frontend/src/pages/Dashboard.js:79-87 | today's records appear in their original order, each as often as in the input, and the positions kept are exactly those at or after today |
| Dashboard.DayCountPositions | frontend/src/pages/Dashboard.js:104-107 | a day's count is the number of record positions in [start, start + 24h) |
| Dashboard.Last7Days | frontend/src/pages/Dashboard.js:90-113 | seven labels and counts, oldest day first; entry k is for the day 6 - k days back |
| Dashboard.FirstAppearances | frontend/src/pages/Dashboard.js:117-126 | the user ids without repeats, each present in the records |
| Dashboard.FirstAppearancesOrder | frontend/src/pages/Dashboard.js:117-126 | the ids are ordered by their first appearance, which is the key order of the counts object |
| Dashboard.Tally | frontend/src/pages/Dashboard.js:117-126 | the counts hold exactly the ids that occur, in first-appearance order, each with its number of records |
| Dashboard.CountedTally | frontend/src/pages/Dashboard.js:120-126 | the loop invariant at the end of the records gives the tally |
| Dashboard.CountByUser | frontend/src/pages/Dashboard.js:117-126 | the counting loop computes the tally |
| Dashboard.SortByCount | frontend/src/pages/Dashboard.js:129-130 | the entries are permuted into non-increasing count order |
| Dashboard.InsertStable | frontend/src/pages/Dashboard.js:130 | inserting into a sorted list adds the new entry after all entries with the same count |
| Dashboard.SortStable | frontend/src/pages/Dashboard.js:130 | the sort is stable: entries with equal counts keep their relative order |
| Dashboard.TopUsers | frontend/src/pages/Dashboard.js:129-131 | at most five entries, or all of them when there are fewer |
| Dashboard.TopDistinct | frontend/src/pages/Dashboard.js:129-131 | no user appears twice among the top entries |
| Dashboard.TopMaximal | frontend/src/pages/Dashboard.js:129-131 | every user left out of the top has a count no larger than any shown |
| Dashboard.FindUser | frontend/src/pages/Dashboard.js:134 | the first user with that id, and none exactly when no user has it |
| Dashboard.DistributionSpec | frontend/src/pages/Dashboard.js:116-141 | at most five distinct attendees, labelled with their registered name (else the id), each with its record count, in non-increasing order, and no attendee left out has more records than one shown |
| Dashboard.UserDistribution | frontend/src/pages/Dashboard.js:116-141 | the labels and data the page computes are the distribution of the tally |
| Dashboard.Statistics | frontend/src/pages/Dashboard.js:148-151 | the user and record totals; today's records and unique attendees never exceed the total, and there are no unique attendees exactly when there are no records |
| Dashboard.UniqueIsTallySize | frontend/src/pages/Dashboard.js:151 | unique attendees equal the number of users in the counts |
| Attendance.WithIds | frontend/src/pages/Attendance.js:34-38 | every record kept unchanged, with its index as id and its parsed timestamp |
| Attendance.WithIdsRoundTrip | frontend/src/pages/Attendance.js:34-38 | stripping the added fields gives back the fetched data, and the ids are distinct |
| Attendance.Search | frontend/src/pages/Attendance.js:54-65 | a blank term keeps every record; otherwise exactly the records whose userId or name, lower-cased, contains the lower-cased term |
| Attendance.SearchOrder | frontend/src/pages/Attendance.js:59-62 | the matching records keep their order, and the positions kept are exactly the matching ones |
| Attendance.MissingFieldsNeverMatch | frontend/src/pages/Attendance.js:60-61 | a record with neither userId nor name never matches a non-blank term |
| Attendance.SearchIgnoresCase | frontend/src/pages/Attendance.js:55-58 | searching for a term and for its lower-cased form give the same records |
| Attendance.SearchIdempotent | frontend/src/pages/Attendance.js:54-65 | searching the search result again changes nothing |
| Attendance.Statistics | frontend/src/pages/Attendance.js:122-128 | total records; unique users and today's records never exceed it; no unique users exactly when nothing is shown |
| Attendance.StatisticsOfSearch | frontend/src/pages/Attendance.js:122-128 | the figures of a search never exceed the record count, and a blank term shows the figures of all records |
| Register.DisplayNameShape | frontend/src/pages/Register.js:53 | the display name is the trimmed name, else the trimmed user id; it has no surrounding spaces, and is non-empty when the id is not blank |
| Register.FailureMessage | frontend/src/pages/Register.js:70 | the server's error when there is one, else a non-empty default |
| Register.SubmitGuards | frontend/src/pages/Register.js:33-49 | a blank user id or a missing image shows the matching error and sends nothing; nothing is sent exactly in those cases |
| Register.SubmitSends | frontend/src/pages/Register.js:51-75 | otherwise the trimmed id, display name and image are sent; success resets the form and shows the success message; failure keeps the input and shows the error; loading ends either way |
| Register.RegisterForm.constructor | frontend/src/pages/Register.js:17-26 | empty form, not loading, no image, snackbar closed |
| Register.RegisterForm.HandleCapture | frontend/src/pages/Register.js:28-30 | the captured image is stored |
| Register.RegisterForm.CloseSnackbar | frontend/src/pages/Register.js:78-80 | the snackbar closes with its message and severity kept |
| Register.RegisterForm.HandleRegister | frontend/src/pages/Register.js:32-76 | the new form state and the request sent are those of the submit specification |
| Webcam.VideoInputs | frontend/src/components/WebcamCapture.js:15 | keeps exactly the video-input devices |
| Webcam.VideoInputsExact | frontend/src/components/WebcamCapture.js:15 | the video inputs keep their order, and the positions kept are exactly the video inputs |
| Webcam.FindRear | frontend/src/components/WebcamCapture.js:19-22 | the first device whose lower-cased label mentions back or rear, and none exactly when no device does |
| Webcam.SelectSpec | frontend/src/components/WebcamCapture.js:14-30 | with a selection already made or no cameras, nothing changes; otherwise the first rear camera is chosen, with facing mode environment, else the first camera, with the facing mode kept |
| Webcam.Toggled | frontend/src/components/WebcamCapture.js:43 | toggling always gives the other of user and environment |
| Webcam.ToggleTwice | frontend/src/components/WebcamCapture.js:42-45 | toggling twice restores the facing mode |
| Webcam.VideoConstraints | frontend/src/components/WebcamCapture.js:61-66 | 1280x720 with the facing mode; an exact deviceId exactly when a device is selected |
| Webcam.Mirrored | frontend/src/components/WebcamCapture.js:128 | the preview is mirrored exactly for the user-facing camera |
| Webcam.WebcamCapture.constructor | frontend/src/components/WebcamCapture.js:8-11 | no devices, no selection, user-facing, no captured image |
| Webcam.WebcamCapture.HandleDevices | frontend/src/components/WebcamCapture.js:14-30 | the devices become the video inputs, and the selection follows the selection specification |
| Webcam.WebcamCapture.ToggleCamera | frontend/src/components/WebcamCapture.js:42-45 | the facing mode toggles and the captured image is cleared |
| Webcam.WebcamCapture.Capture | frontend/src/components/WebcamCapture.js:47-55 | with a webcam, the screenshot is stored, and it is delivered exactly when there is a capture callback; without one nothing happens |
| Webcam.WebcamCapture.Retake | frontend/src/components/WebcamCapture.js:57-59 | the captured image is cleared |

## Left out

- File I/O and Flask plumbing are not modelled:
  - `secure_filename`, saving and deleting the upload, and `cv2.imread` are not modelled;
  - an upload arrives as its file name plus the image reading it back yields, or none;
  - directory creation and `os.path` joins are not modelled;
  - the body of Flask's 500 error page (debug mode) is not modelled; it is one `ServerErrorBody`.
- The vision and deep-learning libraries are parameters:
  - face detection, encoding and distance;
  - the Haar cascade and `predict`;
  - Keras `fit`, `save` and `load`;
  - pickling.
  
  Their own failures are not modelled, with two exceptions:
  - a file that does not unpickle is skipped;
  - a classifier error during recognition is an uncaught error that answers 500.
- FaceRecognitionService.constructor: a saved model that fails to load (the caught exception that leaves `self.model` as `None`) is not modelled; a model is loaded whenever its path exists.
- FaceRecognitionService.TrainModel: `fit` is assumed not to raise. It models `train_model` with fine-tuning as intended (see "## Findings"): as written, the source never succeeds here. With two or more users every call fails with "Training failed: 'InputLayer' object has no attribute 'layers'", after 15 epochs of training and without fine-tuning or saving, as `TrainModelAsWritten` states.
- App.Server.TrainModel: `forceRetrain` is an optional boolean. The source reads any JSON value and judges it by Python truthiness; the client sends a boolean. Beyond that, it answers as the corrected service does. As written, `/train-model` answers 400 on every call, and with two or more users the error is the missing `layers` attribute.
- FaceRecognitionService.TrainModel: the class map `flow_from_directory` finds (`found`) is a parameter. It is not derived from the sorted names of the data directory's user folders.
- App.Server.TrainModel: a request body that is not JSON (where `request.json` itself fails) is not modelled; the body is an object whose `forceRetrain` is present or absent.
- The intended model never meets the `save_model` errors. Once training has succeeded the network and class map exist, so those errors cannot occur.
- FaceModel.FaceRecognitionModel.SaveModel: on the missing class map error, the source has already written the network (`self.model.save(filepath)` runs before the class file is opened). The model writes nothing in that case. Training, the only caller, always has a class map.
- `preprocess_face`: the crop, resize and scaling of a face belong to the `predict` parameter.
- Floating point is not modelled:
  - confidences and distances are `real`;
  - `float(...)` conversions and `toFixed` percentages are not modelled.
- Dates, clocks and locales are parameters:
  - the server's `now` timestamp;
  - `new Date(...)` parsing;
  - the start of each shown day;
  - `toLocaleDateString` labels.
  
  A day counts as 24 hours, as the source's `date.getTime() + 24*60*60*1000` does.
- The HTTP transport is not modelled:
  - the axios calls themselves and their responses;
  - `API_URL`;
  - the other endpoint helpers of `api.js`;
  - page fetching and loading and error flags.
- Register.RegisterForm.HandleRegister: the registration request is a parameter returning success or a thrown error. The asynchronous interleaving of React state updates is not modelled; the handler is one atomic step.
- Lower-casing covers ASCII letters only, and trimming covers the six ASCII whitespace characters only. `String.prototype.trim` also strips U+00A0, U+FEFF, U+1680, U+2000-U+200A, U+2028, U+2029, U+202F, U+205F and U+3000; those are kept by the model. Unicode case mapping is not modelled.
- Dashboard counting treats the counts object as a plain dictionary. The model differs from the source for these user ids:
  - JavaScript objects enumerate integer-like keys first, in numeric order, so ids that are canonical array indices are not in insertion order;
  - an id naming an inherited property (`constructor`, `toString`, `hasOwnProperty` and the like) finds a function in the fresh object, so `++` stores NaN;
  - the id `__proto__` is never counted, since assigning a number to it is ignored.
  
  The model is exact for every other user id.
- JSON records whose fields are not strings (numbers, objects) are not modelled. A field is a string or absent.
- The rendering of every page is not modelled: JSX, Material UI, the charts' colours and the DataGrid columns.
- Two pages are outside the modelled core:
  - `Recognition.js` and `Settings.js`;
  - the routing in `App.js`.
- Concurrency is not modelled. The Flask server is treated as handling one request at a time.
- Webcam: enumerating media devices and its failure message belong to the browser and are not modelled. A device's `label` field is named `deviceLabel`, because `label` is a Dafny keyword.

## Findings

| source | as written | input that shows it | evidently intended | confidence | as-written member | corrected member |
|---|---|---|---|---|---|---|
| models/face_model.py:118 | `fine_tune` takes `self.model.layers[0]` as the base model. The network `build_model` creates is `Model(inputs=base_model.input, ...)` (face_model.py:42), so its first layer is the input layer, which has no `layers`, and the call raises `AttributeError`. `train_model` (backend/model_integration.py:155 and 161-162) turns that into a failure, so `/train-model` never succeeds: the classifier is trained for 15 epochs but neither fine-tuned nor saved. With fewer than 8 training images `steps_per_epoch` is 0 and `fit` itself raises first; the answer is then a failure too | any `POST /train-model` with two or more user directories, on a fresh or a loaded classifier | unfreeze the last four layers of the VGG16 base, fine-tune for 5 epochs, save, and answer "Model trained successfully" | high for any Keras functional model; not executed | `FaceModel.FaceRecognitionModel.FineTune`, `ModelIntegration.FaceRecognitionService.TrainModelAsWritten` | `FaceModel.FaceRecognitionModel.FineTuneBase`, `ModelIntegration.FaceRecognitionService.TrainModel` |
