/** Failure-carrying return types and the error taxonomy of the orchestration
    core. Each Python exception the core raises or catches becomes one Error
    variant; a raising call becomes a Result or an Outcome. */
module Results {

  datatype Option<+T> = None | Some(value: T)

  /** Why an operation failed, named after the Python exception it stands for. */
  datatype Error =
    | InvalidCategory(category: string)   // ValueError "Invalid backup category"
    | MissingKey(key: string)             // KeyError on a dict lookup
    | WrongType(key: string)              // TypeError / AttributeError on a config value
    | BadInt(key: string)                 // ValueError from int() of a string
    | DuplicateRepo(category: string, job: string, repoPath: string)
                                          // ValueError "Duplicate repo ..."
    | Unformattable(key: string)          // a list or dict value interpolated into an f-string
    | CommandFailed(argv: seq<string>)    // subprocess.CalledProcessError (check=True)
    | NotFound(path: string)              // FileNotFoundError
    | NotAMountPoint(path: string)        // ValueError "is not a mount point"
    | BodyRaised                          // the body of a with-block raised
    | BadCall(name: string)               // TypeError: called with the wrong number of arguments
    | NoAttribute(name: string)           // AttributeError: the attribute read on None

  datatype Result<+T> = Ok(value: T) | Err(error: Error)

  datatype Outcome = Pass | Fail(error: Error)
}
