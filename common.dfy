/** Small shared types of the vocabulary model. */
module Common {

  datatype Option<T> = None | Some(value: T)

  /**
   * A review date as the program stores it (`datetime.now()` formatted as
   * `%Y-%m-%d`). The model never looks inside it: the current date is a
   * parameter of every operation that stamps an entry.
   */
  type Date = string
}
