/** What the process finds around it when the retrieval tool runs: which
    optional libraries imported, and the environment variables. */
module Runtime {

  datatype Runtime = Runtime(
    genaiInstalled: bool,          // `import google.generativeai` succeeded
    pypdfInstalled: bool,          // `from pypdf import PdfReader` succeeded
    env: map<string, string>)      // `os.environ`

  /** `os.getenv(name)`, with a missing variable and an empty value both read
      as no value, as the `or` / `not` tests in the source read them. */
  function EnvValue(rt: Runtime, name: string): string
  {
    if name in rt.env then rt.env[name] else ""
  }
}
