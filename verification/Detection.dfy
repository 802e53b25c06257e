/** The two detector classes (service/detection.py) and small shared types. */
module Detection {

  datatype Option<+T> = None | Some(value: T)

  datatype Result<+T> = Ok(value: T) | Err(message: string)

  const FACE_CLASS_ID := 0
  const NUMBER_PLATE_CLASS_ID := 1
  const FACE_CLASS_NAME := "face"
  const NUMBER_PLATE_CLASS_NAME := "number_plate"

  /** What a detected object declares about its class; None when absent or not a number. */
  datatype Label = Label(classId: Option<int>, className: Option<string>) {

    predicate IsFace() {
      classId == Some(FACE_CLASS_ID) && className == Some(FACE_CLASS_NAME)
    }

    predicate IsPlate() {
      classId == Some(NUMBER_PLATE_CLASS_ID) || className == Some(NUMBER_PLATE_CLASS_NAME)
    }
  }

  lemma NoIds(ids: set<int>)
    ensures (forall id :: id !in ids) ==> ids == {}
  {
    if forall id :: id !in ids {
      assert ids == {};
    }
  }
}
