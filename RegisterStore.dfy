/** The client-side registration wizard store: the form data of the three
    steps, the step counter and the flags of the username and e-mail checks.
    Each action computes new form data with a pure function below; the store
    class assigns it, as `set` does. */
module RegisterStore {
  import opened Wrappers

  datatype FormData = FormData(
    firstName: string,
    lastName: string,
    email: string,
    username: string,
    password: string,
    consentToFaceRecognition: bool,
    faceImages: seq<string>,
    currentStep: int,
    isFirstStepValid: bool)

  /** `initialFormData`. */
  const InitialFormData := FormData("", "", "", "", "", false, [], 1, false)

  /** The keys of `RegisterFormData`. */
  datatype Key =
    | FirstName | LastName | Email | Username | Password
    | Consent | FaceImages | CurrentStep | FirstStepValid

  /** A value of one of the form's fields. */
  datatype Value = Text(text: string) | Flag(flag: bool) | Images(images: seq<string>) | Number(number: int)

  /** `RegisterFormData[K]`: the value has the field's type. */
  predicate FitsKey(k: Key, v: Value)
  {
    match k
    case FirstName | LastName | Email | Username | Password => v.Text?
    case Consent | FirstStepValid => v.Flag?
    case FaceImages => v.Images?
    case CurrentStep => v.Number?
  }

  function Get(f: FormData, k: Key): (v: Value)
    ensures FitsKey(k, v)
  {
    match k
    case FirstName => Text(f.firstName)
    case LastName => Text(f.lastName)
    case Email => Text(f.email)
    case Username => Text(f.username)
    case Password => Text(f.password)
    case Consent => Flag(f.consentToFaceRecognition)
    case FaceImages => Images(f.faceImages)
    case CurrentStep => Number(f.currentStep)
    case FirstStepValid => Flag(f.isFirstStepValid)
  }

  /** Two forms that agree on every key are the same form. */
  lemma SameFieldsSameForm(f: FormData, g: FormData)
    requires forall k :: Get(f, k) == Get(g, k)
    ensures f == g
  {
    assert Get(f, FirstName) == Get(g, FirstName) && Get(f, LastName) == Get(g, LastName);
    assert Get(f, Email) == Get(g, Email) && Get(f, Username) == Get(g, Username);
    assert Get(f, Password) == Get(g, Password) && Get(f, Consent) == Get(g, Consent);
    assert Get(f, FaceImages) == Get(g, FaceImages) && Get(f, CurrentStep) == Get(g, CurrentStep);
    assert Get(f, FirstStepValid) == Get(g, FirstStepValid);
  }

  /** `{...formData, [field]: value}`. */
  function SetField(f: FormData, k: Key, v: Value): (r: FormData)
    requires FitsKey(k, v)
    ensures Get(r, k) == v
    ensures forall k' :: k' != k ==> Get(r, k') == Get(f, k')
  {
    match k
    case FirstName => f.(firstName := v.text)
    case LastName => f.(lastName := v.text)
    case Email => f.(email := v.text)
    case Username => f.(username := v.text)
    case Password => f.(password := v.text)
    case Consent => f.(consentToFaceRecognition := v.flag)
    case FaceImages => f.(faceImages := v.images)
    case CurrentStep => f.(currentStep := v.number)
    case FirstStepValid => f.(isFirstStepValid := v.flag)
  }

  /** A `Partial<RegisterFormData>`: some keys, each with a value of its type. */
  predicate FitsForm(fields: map<Key, Value>)
    ensures FitsForm(map[])
    ensures FitsForm(fields) ==> forall k :: k in fields ==> FitsKey(k, fields[k])
  {
    forall k :: k in fields ==> FitsKey(k, fields[k])
  }

  /** The value of `k` after spreading `fields` over `f`. */
  function Pick(f: FormData, fields: map<Key, Value>, k: Key): (v: Value)
    ensures FitsForm(fields) ==> FitsKey(k, v)
    ensures k !in fields ==> v == Get(f, k)
  {
    if k in fields then fields[k] else Get(f, k)
  }

  /** `{...formData, ...fields}`. */
  function SetFields(f: FormData, fields: map<Key, Value>): (r: FormData)
    requires FitsForm(fields)
    ensures forall k :: Get(r, k) == (if k in fields then fields[k] else Get(f, k))
  {
    FormData(
      Pick(f, fields, FirstName).text, Pick(f, fields, LastName).text,
      Pick(f, fields, Email).text, Pick(f, fields, Username).text,
      Pick(f, fields, Password).text, Pick(f, fields, Consent).flag,
      Pick(f, fields, FaceImages).images, Pick(f, fields, CurrentStep).number,
      Pick(f, fields, FirstStepValid).flag)
  }

  /** Setting one key through `setFormFields` is `setFormField`. */
  lemma SetFieldsOfOne(f: FormData, k: Key, v: Value)
    requires FitsKey(k, v)
    ensures SetFields(f, map[k := v]) == SetField(f, k, v)
  {
    var a, b := SetFields(f, map[k := v]), SetField(f, k, v);
    forall k' ensures Get(a, k') == Get(b, k') {
      if k' != k { assert k' !in map[k := v]; }
    }
    SameFieldsSameForm(a, b);
  }

  /** Applying the same partial update twice is applying it once; the empty
      update changes nothing. */
  lemma SetFieldsIdempotent(f: FormData, fields: map<Key, Value>)
    requires FitsForm(fields)
    ensures SetFields(SetFields(f, fields), fields) == SetFields(f, fields)
    ensures SetFields(f, map[]) == f
  {
    var once := SetFields(f, fields);
    var twice := SetFields(once, fields);
    forall k ensures Get(twice, k) == Get(once, k) { }
    SameFieldsSameForm(twice, once);
    var none := SetFields(f, map[]);
    forall k ensures Get(none, k) == Get(f, k) { }
    SameFieldsSameForm(none, f);
  }

  /** `nextStep`: one step on, with no upper bound, nothing else changed. */
  function NextStep(f: FormData): (r: FormData)
    ensures r.currentStep == f.currentStep + 1
    ensures forall k :: k != CurrentStep ==> Get(r, k) == Get(f, k)
  {
    f.(currentStep := f.currentStep + 1)
  }

  /** `prevStep`: `Math.max(1, currentStep - 1)`. */
  function PrevStep(f: FormData): (r: FormData)
    ensures r.currentStep >= 1
    ensures f.currentStep > 1 ==> r.currentStep == f.currentStep - 1
    ensures f.currentStep <= 1 ==> r.currentStep == 1
    ensures forall k :: k != CurrentStep ==> Get(r, k) == Get(f, k)
  {
    f.(currentStep := if f.currentStep - 1 > 1 then f.currentStep - 1 else 1)
  }

  /** Going back after going forward returns to the same form from any step >= 1. */
  lemma PrevUndoesNext(f: FormData)
    requires f.currentStep >= 1
    ensures PrevStep(NextStep(f)) == f
  {
  }

  /** `filter((_, i) => i !== index)`: drop the element at `index`, if any. */
  function RemoveIndex<T>(s: seq<T>, index: int): (r: seq<T>)
    ensures 0 <= index < |s| ==> r == s[..index] + s[index + 1..]
    ensures !(0 <= index < |s|) ==> r == s
    decreases |s|
  {
    if |s| == 0 then []
    else (if index == 0 then [] else [s[0]]) + RemoveIndex(s[1..], index - 1)
  }

  /** `addFaceImage`: appended at the end. */
  function AddFaceImage(f: FormData, image: string): (r: FormData)
    ensures |r.faceImages| == |f.faceImages| + 1
    ensures r.faceImages[..|f.faceImages|] == f.faceImages && r.faceImages[|f.faceImages|] == image
    ensures forall k :: k != FaceImages ==> Get(r, k) == Get(f, k)
  {
    f.(faceImages := f.faceImages + [image])
  }

  /** `removeFaceImage`: exactly the element at `index` goes. */
  function RemoveFaceImage(f: FormData, index: int): (r: FormData)
    ensures 0 <= index < |f.faceImages| ==>
      |r.faceImages| == |f.faceImages| - 1 &&
      (forall j :: 0 <= j < index ==> r.faceImages[j] == f.faceImages[j]) &&
      (forall j :: index <= j < |r.faceImages| ==> r.faceImages[j] == f.faceImages[j + 1])
    ensures !(0 <= index < |f.faceImages|) ==> r == f
    ensures forall k :: k != FaceImages ==> Get(r, k) == Get(f, k)
  {
    f.(faceImages := RemoveIndex(f.faceImages, index))
  }

  /** Removing the image just added restores the form. */
  lemma RemoveUndoesAdd(f: FormData, image: string)
    ensures RemoveFaceImage(AddFaceImage(f, image), |f.faceImages|) == f
  {
    var g := AddFaceImage(f, image);
    assert g.faceImages[..|f.faceImages|] == f.faceImages;
  }

  /** What `persist` writes to storage: the form data only. */
  datatype Persisted = Persisted(formData: FormData)

  class RegisterStore {
    var formData: FormData
    var isCheckingUsername: bool
    var isUsernameAvailable: Option<bool>
    var isCheckingEmail: bool
    var isEmailAvailable: Option<bool>

    /** The four flags of the duplicate checks. */
    function CheckFlags(): (flags: (bool, Option<bool>, bool, Option<bool>))
      reads this
      ensures flags.0 == isCheckingUsername && flags.1 == isUsernameAvailable
      ensures flags.2 == isCheckingEmail && flags.3 == isEmailAvailable
    {
      (isCheckingUsername, isUsernameAvailable, isCheckingEmail, isEmailAvailable)
    }

    /** `partialize`. */
    function Persist(): (p: Persisted)
      reads this
      ensures p.formData == formData
    {
      Persisted(formData)
    }

    constructor ()
      ensures formData == InitialFormData
      ensures CheckFlags() == (false, None, false, None)
    {
      formData := InitialFormData;
      isCheckingUsername, isUsernameAvailable := false, None;
      isCheckingEmail, isEmailAvailable := false, None;
    }

    method SetFormField(k: Key, v: Value)
      requires FitsKey(k, v)
      modifies this
      ensures formData == SetField(old(formData), k, v)
      ensures CheckFlags() == old(CheckFlags())
    {
      formData := SetField(formData, k, v);
    }

    method SetFormFields(fields: map<Key, Value>)
      requires FitsForm(fields)
      modifies this
      ensures formData == SetFields(old(formData), fields)
      ensures CheckFlags() == old(CheckFlags())
    {
      formData := SetFields(formData, fields);
    }

    method NextStepAction()
      modifies this
      ensures formData == NextStep(old(formData))
      ensures CheckFlags() == old(CheckFlags())
    {
      formData := NextStep(formData);
    }

    method PrevStepAction()
      modifies this
      ensures formData == PrevStep(old(formData))
      ensures CheckFlags() == old(CheckFlags())
    {
      formData := PrevStep(formData);
    }

    method AddFaceImageAction(image: string)
      modifies this
      ensures formData == AddFaceImage(old(formData), image)
      ensures CheckFlags() == old(CheckFlags())
    {
      formData := AddFaceImage(formData, image);
    }

    method RemoveFaceImageAction(index: int)
      modifies this
      ensures formData == RemoveFaceImage(old(formData), index)
      ensures CheckFlags() == old(CheckFlags())
    {
      formData := RemoveFaceImage(formData, index);
    }

    /** `clearForm`: the initial form, no check in progress, nothing known. */
    method ClearForm()
      modifies this
      ensures formData == InitialFormData
      ensures CheckFlags() == (false, None, false, None)
    {
      formData := InitialFormData;
      isCheckingUsername, isUsernameAvailable := false, None;
      isCheckingEmail, isEmailAvailable := false, None;
    }

    method SetFirstStepValid(valid: bool)
      modifies this
      ensures formData == SetField(old(formData), FirstStepValid, Flag(valid))
      ensures CheckFlags() == old(CheckFlags())
    {
      formData := formData.(isFirstStepValid := valid);
    }

    /** Touches the two username flags only; nothing persisted changes. */
    method SetUsernameCheckStatus(checking: bool, available: Option<bool>)
      modifies this
      ensures isCheckingUsername == checking && isUsernameAvailable == available
      ensures isCheckingEmail == old(isCheckingEmail) && isEmailAvailable == old(isEmailAvailable)
      ensures formData == old(formData) && Persist() == old(Persist())
    {
      isCheckingUsername, isUsernameAvailable := checking, available;
    }

    /** Touches the two e-mail flags only; nothing persisted changes. */
    method SetEmailCheckStatus(checking: bool, available: Option<bool>)
      modifies this
      ensures isCheckingEmail == checking && isEmailAvailable == available
      ensures isCheckingUsername == old(isCheckingUsername) && isUsernameAvailable == old(isUsernameAvailable)
      ensures formData == old(formData) && Persist() == old(Persist())
    {
      isCheckingEmail, isEmailAvailable := checking, available;
    }
  }
}
