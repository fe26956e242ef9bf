/**
 * The invocation settings of one run of the tool: the class-level defaults of
 * `Config`, the location of the credential store under the user's home
 * directory, and the values the top-level command captures into `Config`.
 */
module Settings {
  import opened Wrappers

  /** Directory of the credential store, relative to the home directory. */
  const AWS_CONFIG_DIR := "/.aws/"
  /** The credential store file, relative to the home directory. */
  const AWS_CONFIG_FILE := AWS_CONFIG_DIR + "credentials"

  /** Initial values of the `Config` class attributes. */
  const DEFAULT_OUTPUT_FORMAT := "json"
  const DEFAULT_REGION := "us-west-2"

  /** Defaults of the `--output` and `--region` options of the top-level command. */
  const OUTPUT_OPTION_DEFAULT := "json"
  const REGION_OPTION_DEFAULT := "us-west-2"

  /** The directory that must exist before the store is written. */
  function ConfigDir(home: string): (dir: string)
    ensures dir == home + "/.aws/"
    ensures |dir| == |home| + 6 && dir[..|home|] == home
  {
    home + AWS_CONFIG_DIR
  }

  /** The store file: `credentials` directly inside `ConfigDir(home)`. */
  function CredentialsPath(home: string): (path: string)
    ensures path == ConfigDir(home) + "credentials"
    ensures path == home + "/.aws/credentials"
    ensures ConfigDir(home) < path
  {
    home + AWS_CONFIG_FILE
  }

  /** The process-wide settings held as class attributes and overwritten once by the top-level command. */
  class Config {
    var awsProfile: Option<string>
    var outputFormat: string
    var region: string

    /** The class attributes as declared: no profile, JSON output, us-west-2. */
    constructor ()
      ensures awsProfile == None
      ensures outputFormat == "json" && region == "us-west-2"
    {
      awsProfile := None;
      outputFormat := DEFAULT_OUTPUT_FORMAT;
      region := DEFAULT_REGION;
    }

    /**
     * The top-level command: every run overwrites all three settings; an
     * omitted `--output` or `--region` takes its option default, so an
     * omitted option leaves the setting as the class declared it.
     */
    method Capture(profile: Option<string>, output: Option<string>, region: Option<string>)
      modifies this
      ensures awsProfile == profile
      ensures output.Some? ==> outputFormat == output.value
      ensures output.None? ==> outputFormat == "json" == DEFAULT_OUTPUT_FORMAT
      ensures region.Some? ==> this.region == region.value
      ensures region.None? ==> this.region == "us-west-2" == DEFAULT_REGION
    {
      awsProfile := profile;
      outputFormat := if output.Some? then output.value else OUTPUT_OPTION_DEFAULT;
      this.region := if region.Some? then region.value else REGION_OPTION_DEFAULT;
    }
  }
}
