/** An optional value: the model's stand-in for a C# `null` reference or a
    `Nullable<T>` that may be empty. */
module Maybe {

  datatype Option<+T> = None | Some(value: T)
}
