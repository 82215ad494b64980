/** The settled promise of `promisify(exec)`: the only view the model has of a norminette run. */
module Exec {

  /** Resolved with both streams, or rejected with an error that carries them (a non-zero
      exit, a kill on timeout, a command that cannot be run). */
  datatype ExecResult = Resolved(stdout: string, stderr: string) | Rejected(stdout: string, stderr: string)
}
