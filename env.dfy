/**
 * What the tool sees of the outside world: the exceptions its Python code raises,
 * a filesystem as a map from paths to nodes, and external commands as an oracle
 * that answers a command line with an exit status and the text it printed.
 */
module Env {
  import opened Wrappers

  /** The Python exceptions the modelled code raises or lets propagate. */
  datatype Error =
    | ValueError(message: string)
    /** `ValueError(template, argument)`: raised with the message template and its argument unformatted. */
    | ValueErrorOf(template: string, argument: string)
    | KeyError(key: string)
    | IndexError
    | TypeError
    /** A name read before anything was bound to it (`UnboundLocalError`). */
    | NameError(name: string)
    | AssertionError
    | StopIteration
    | CalledProcessError(command: string, exitCode: int)
    | IOError(path: string)
    | Raised(message: string)

  type Outcome<T> = Result<T, Error>

  datatype Node = File(text: string) | Directory

  /** Paths and what they name; the empty path names nothing, as `os.path.exists('')` is false. */
  type FileSystem = fs: map<string, Node> | "" !in fs witness map[]

  /** `os.path.exists(p)` */
  predicate Exists(fs: FileSystem, p: string) {
    p in fs
  }

  /** `os.path.isfile(p)` */
  predicate IsFile(fs: FileSystem, p: string) {
    p in fs && fs[p].File?
  }

  /** `os.path.isdir(p)` */
  predicate IsDir(fs: FileSystem, p: string) {
    p in fs && fs[p].Directory?
  }

  /** `open(p).read()`: the contents of a regular file, IOError otherwise. */
  function ReadFile(fs: FileSystem, p: string): (r: Outcome<string>)
    ensures r.Ok? <==> IsFile(fs, p)
    ensures r.Ok? ==> fs[p] == File(r.value)
  {
    if IsFile(fs, p) then Ok(fs[p].text) else Err(IOError(p))
  }

  /**
   * `os.path.join(a, b)` on POSIX: an absolute b replaces a; otherwise b follows a,
   * with a `/` in between unless a is empty or already ends with one.
   */
  function PathJoin(a: string, b: string): string {
    if b != [] && b[0] == '/' then b
    else if a == [] || a[|a| - 1] == '/' then a + b
    else a + "/" + b
  }

  /** An absolute second path is the result; a relative one is appended below the first. */
  lemma PathJoinParts(a: string, b: string)
    ensures b != [] && b[0] == '/' ==> PathJoin(a, b) == b
    ensures !(b != [] && b[0] == '/') ==>
      var r := PathJoin(a, b);
      && |a| + |b| <= |r| <= |a| + |b| + 1
      && r[..|a|] == a && r[|r| - |b|..] == b
      && (a != [] ==> r[|r| - |b| - 1] == '/')
  {
  }

  /** The answer of one external command: its exit status and what it wrote to standard output. */
  datatype CommandResult = CommandResult(exitCode: int, output: string)

  /** External commands as an uninterpreted oracle, keyed by the command line. */
  type Shell = string -> CommandResult

  /** `subprocess.check_output(cmd)`: the output, or CalledProcessError for a non-zero status. */
  function CheckOutput(shell: Shell, cmd: string): (r: Outcome<string>)
    ensures r.Ok? <==> shell(cmd).exitCode == 0
    ensures r.Ok? ==> r.value == shell(cmd).output
    ensures r.Err? ==> r.error == CalledProcessError(cmd, shell(cmd).exitCode)
  {
    var answer := shell(cmd);
    if answer.exitCode == 0 then Ok(answer.output) else Err(CalledProcessError(cmd, answer.exitCode))
  }
}
