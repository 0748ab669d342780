/** An optional value: an absent (`undefined`) field of a record, or the
    result of a lookup that found nothing. */
module Optional {
  datatype Option<T> = None | Some(value: T)
}
