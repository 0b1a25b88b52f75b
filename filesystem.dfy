/**
 The source tree the generator reads, as an abstract map from path to file. A path
 that is not a key is not a regular file (`os.path.isfile` is false and `open` fails).
 The text of a readable file is what Python's text mode returns, after its newline
 translation.
 */
module FileSystem {

  datatype File =
    | Readable(contents: string)  // opens and decodes
    | Unreadable                  // exists, but opening or reading raises an OSError
    | Undecodable                 // exists, but reading raises a UnicodeDecodeError

  type Fs = map<string, File>

  /** What can stop the generator. */
  datatype Failure =
    | ReadError(path: string)     // a crate's `lib.rs` cannot be opened or read
    | DecodeError(path: string)   // a module file that is not valid UTF-8
    | KeyError(key: string)       // an override names a module the scan did not find

  /** POSIX `os.path.join(a, b)`: an absolute `b` replaces `a`; a separator is inserted
      unless `a` is empty or already ends with one. */
  function PathJoin(a: string, b: string): string
  {
    if |b| > 0 && b[0] == '/' then b
    else if |a| == 0 || a[|a| - 1] == '/' then a + b
    else a + "/" + b
  }
}
