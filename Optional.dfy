/** The nullable value of the source (`null` in SQL rows and in JavaScript objects). */
module Optional {
  datatype Option<+T> = None | Some(value: T)
}
