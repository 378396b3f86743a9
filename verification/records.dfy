/** The values that flow between the loader, the lookup procedure and the collector. */
module Records {

  /** Python's `None` / a present value. */
  datatype Option<+T> = None | Some(value: T)

  /** One line of the target file: `{"username": ..., "birthday": ...}`. */
  datatype InputRecord = InputRecord(username: string, birthday: string)

  /** The verdict for one person: `{"found", "username", "birthday", "link"}`. */
  datatype Outcome = Outcome(found: bool, username: string, birthday: string, link: Option<string>)
}
