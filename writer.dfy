/**
 * `write_config`: merges the temporary credentials returned by STS into one
 * profile of the credential store without clobbering the other profiles.
 */
module Writer {
  import opened Ini
  import Settings
  import FileSystem
  import Parser

  /** The temporary credentials of an STS AssumeRole response. */
  datatype Credentials = Credentials(accessKeyId: string, secretAccessKey: string, sessionToken: string, expiration: string)

  /** The AssumeRole response, reduced to the part the writer reads. */
  datatype AssumeRoleResponse = AssumeRoleResponse(credentials: Credentials)

  const OUTPUT_KEY := "output"
  const REGION_KEY := "region"
  const ACCESS_KEY_ID_KEY := "aws_access_key_id"
  const SECRET_ACCESS_KEY_KEY := "aws_secret_access_key"
  const SESSION_TOKEN_KEY := "aws_session_token"

  /** The keys the writer sets in the target profile; every other key is left alone. */
  const MANAGED_KEYS := {OUTPUT_KEY, REGION_KEY, ACCESS_KEY_ID_KEY, SECRET_ACCESS_KEY_KEY, SESSION_TOKEN_KEY}

  /** The five entries written into the target profile. */
  function ManagedEntries(output: string, region: string, creds: Credentials): Entries
  {
    map[OUTPUT_KEY := output, REGION_KEY := region, ACCESS_KEY_ID_KEY := creds.accessKeyId,
        SECRET_ACCESS_KEY_KEY := creds.secretAccessKey, SESSION_TOKEN_KEY := creds.sessionToken]
  }

  /** The five managed keys are five different keys. */
  lemma ManagedKeysDistinct()
    ensures OUTPUT_KEY != REGION_KEY && OUTPUT_KEY != ACCESS_KEY_ID_KEY && OUTPUT_KEY != SECRET_ACCESS_KEY_KEY
    ensures OUTPUT_KEY != SESSION_TOKEN_KEY && REGION_KEY != ACCESS_KEY_ID_KEY && REGION_KEY != SECRET_ACCESS_KEY_KEY
    ensures REGION_KEY != SESSION_TOKEN_KEY && ACCESS_KEY_ID_KEY != SECRET_ACCESS_KEY_KEY
    ensures ACCESS_KEY_ID_KEY != SESSION_TOKEN_KEY && SECRET_ACCESS_KEY_KEY != SESSION_TOKEN_KEY
    ensures |MANAGED_KEYS| == 5
  {
    assert OUTPUT_KEY[0] != REGION_KEY[0];
    assert ACCESS_KEY_ID_KEY[4] != SESSION_TOKEN_KEY[4];
  }

  /** The profile's entries before the write: none when the profile is new. */
  function Prior(st: Store, profile: string): Entries
  {
    if profile in st.sections then st.sections[profile] else map[]
  }

  /**
   * The store after the write: the profile is appended to the section list
   * when missing, and its entries become its earlier entries overridden by
   * the five managed ones.
   */
  function Merge(st: Store, profile: string, output: string, region: string, creds: Credentials): (r: Store)
    requires WellFormed(st) && profile != DEFAULT_SECTION
    ensures WellFormed(r)
    ensures profile in r.sections
    ensures profile in st.sections ==> r.names == st.names
    ensures profile !in st.sections ==> r.names == st.names + [profile]
    ensures r.defaults == st.defaults
    ensures r.sections.Keys == st.sections.Keys + {profile}
    ensures forall n :: n in st.sections && n != profile ==> r.sections[n] == st.sections[n]
  {
    var names := if profile in st.sections then st.names else st.names + [profile];
    assert forall i :: 0 <= i < |st.names| ==> names[i] == st.names[i];
    Store(st.defaults, names, st.sections[profile := Prior(st, profile) + ManagedEntries(output, region, creds)])
  }

  /**
   * What the writer's calls do to the store as written: for an empty profile
   * name the section is still added, but configparser's `set` sends the five
   * keys to the defaults, which every profile inherits.
   */
  function MergeAsWritten(st: Store, profile: string, output: string, region: string, creds: Credentials): (r: Store)
    requires WellFormed(st) && profile != DEFAULT_SECTION
    ensures WellFormed(r)
    ensures profile in r.sections
    ensures r.names == Merge(st, profile, output, region, creds).names
    ensures profile != "" ==> r == Merge(st, profile, output, region, creds)
    ensures profile == "" ==> r.defaults == st.defaults + ManagedEntries(output, region, creds)
    ensures profile == "" ==> r.sections[profile] == Prior(st, profile)
    ensures forall n :: n in st.sections && n != profile ==> r.sections[n] == st.sections[n]
  {
    if profile != "" then Merge(st, profile, output, region, creds)
    else
      var withProfile := if profile in st.sections then st else AddSection(st, profile);
      withProfile.(defaults := st.defaults + ManagedEntries(output, region, creds))
  }

  /**
   * The discrepancy, for every store: with the profile name "" all five
   * managed entries go to the defaults, the profile's own section keeps what
   * it had (nothing, when it is new), and the result differs from the intended
   * merge whenever the access key was not already in both places.
   */
  lemma EmptyProfileWritesDefaults(st: Store, output: string, region: string, creds: Credentials)
    requires WellFormed(st)
    ensures var r := MergeAsWritten(st, "", output, region, creds);
      && r.sections[""] == Prior(st, "")
      && (forall n :: n in st.sections ==> r.sections[n] == st.sections[n])
      && MANAGED_KEYS <= r.defaults.Keys
      && r.defaults[OUTPUT_KEY] == output
      && r.defaults[REGION_KEY] == region
      && r.defaults[ACCESS_KEY_ID_KEY] == creds.accessKeyId
      && r.defaults[SECRET_ACCESS_KEY_KEY] == creds.secretAccessKey
      && r.defaults[SESSION_TOKEN_KEY] == creds.sessionToken
      && (ACCESS_KEY_ID_KEY !in st.defaults || ACCESS_KEY_ID_KEY !in Prior(st, "") ==>
            r != Merge(st, "", output, region, creds))
  {
    var r := MergeAsWritten(st, "", output, region, creds);
    var m := ManagedEntries(output, region, creds);
    ManagedEntriesValues(output, region, creds);
    assert r.defaults == st.defaults + m;
    MergeTargetEntries(st, "", output, region, creds);
  }

  /** Writing the same credentials with the same settings to the same profile twice, as written, changes nothing more than once. */
  lemma MergeAsWrittenIdempotent(st: Store, profile: string, output: string, region: string, creds: Credentials)
    requires WellFormed(st) && profile != DEFAULT_SECTION
    ensures var once := MergeAsWritten(st, profile, output, region, creds);
      MergeAsWritten(once, profile, output, region, creds) == once
  {
    var once := MergeAsWritten(st, profile, output, region, creds);
    if profile != "" {
      MergeIdempotent(st, profile, output, region, creds);
    } else {
      var m := ManagedEntries(output, region, creds);
      var twice := MergeAsWritten(once, profile, output, region, creds);
      assert twice.defaults == once.defaults + m == once.defaults;
      assert twice.sections == once.sections;
    }
  }

  /** Setting the five keys one after another overrides them and keeps every other entry. */
  lemma ManagedUpdates(m: Entries, output: string, region: string, creds: Credentials)
    ensures m[OUTPUT_KEY := output][REGION_KEY := region][ACCESS_KEY_ID_KEY := creds.accessKeyId]
             [SECRET_ACCESS_KEY_KEY := creds.secretAccessKey][SESSION_TOKEN_KEY := creds.sessionToken]
            == m + ManagedEntries(output, region, creds)
  {
  }

  /** Inside the target profile: the five managed keys hold the settings and the credentials; every other key keeps its value. */
  lemma MergeTargetEntries(st: Store, profile: string, output: string, region: string, creds: Credentials)
    requires WellFormed(st) && profile != DEFAULT_SECTION
    ensures var e := Merge(st, profile, output, region, creds).sections[profile];
      && e.Keys == Prior(st, profile).Keys + MANAGED_KEYS
      && e[OUTPUT_KEY] == output
      && e[REGION_KEY] == region
      && e[ACCESS_KEY_ID_KEY] == creds.accessKeyId
      && e[SECRET_ACCESS_KEY_KEY] == creds.secretAccessKey
      && e[SESSION_TOKEN_KEY] == creds.sessionToken
      && forall k :: k in Prior(st, profile) && k !in MANAGED_KEYS ==> e[k] == Prior(st, profile)[k]
  {
    var m := ManagedEntries(output, region, creds);
    var e := Merge(st, profile, output, region, creds).sections[profile];
    assert e == Prior(st, profile) + m;
    ManagedEntriesValues(output, region, creds);
  }

  /** The managed entries hold exactly the five managed keys, each bound to its own value. */
  lemma ManagedEntriesValues(output: string, region: string, creds: Credentials)
    ensures var m := ManagedEntries(output, region, creds);
      && m.Keys == MANAGED_KEYS
      && m[OUTPUT_KEY] == output
      && m[REGION_KEY] == region
      && m[ACCESS_KEY_ID_KEY] == creds.accessKeyId
      && m[SECRET_ACCESS_KEY_KEY] == creds.secretAccessKey
      && m[SESSION_TOKEN_KEY] == creds.sessionToken
  {
    ManagedKeysDistinct();
  }

  /** The section count: unchanged when the profile existed, one more when it was added; the list and the table agree. */
  lemma MergeSectionCount(st: Store, profile: string, output: string, region: string, creds: Credentials)
    requires WellFormed(st) && profile != DEFAULT_SECTION
    ensures var r := Merge(st, profile, output, region, creds);
      && |r.sections| == |r.names|
      && |r.names| == |st.names| + (if profile in st.sections then 0 else 1)
  {
    var r := Merge(st, profile, output, region, creds);
    SectionCount(r);
  }

  /** Writing the same credentials with the same settings to the same profile a second time changes nothing. */
  lemma MergeIdempotent(st: Store, profile: string, output: string, region: string, creds: Credentials)
    requires WellFormed(st) && profile != DEFAULT_SECTION
    ensures var once := Merge(st, profile, output, region, creds);
      Merge(once, profile, output, region, creds) == once
  {
    var once := Merge(st, profile, output, region, creds);
    var twice := Merge(once, profile, output, region, creds);
    var e := ManagedEntries(output, region, creds);
    assert twice.sections[profile] == once.sections[profile] + e == once.sections[profile];
    assert twice.sections == once.sections;
  }

  /** A later write to another profile leaves the first profile's credentials as written. */
  lemma MergeKeepsOtherProfile(st: Store, a: string, b: string, output: string, region: string, first: Credentials, second: Credentials)
    requires WellFormed(st) && a != DEFAULT_SECTION && b != DEFAULT_SECTION && a != b
    ensures var one := Merge(st, a, output, region, first);
      Merge(one, b, output, region, second).sections[a] == one.sections[a]
  {
  }

  /** Binding a name twice keeps only the second binding. */
  lemma Overwrite(m: map<string, Entries>, name: string, first: Entries, second: Entries)
    ensures m[name := first][name := second] == m[name := second]
  {
  }

  /**
   * The merge step of `write_config` on the parser: add the profile when it
   * is missing, then set the five keys.
   */
  method PutCredentials(parser: Parser.ConfigParser, saveProfile: string, output: string, region: string, creds: Credentials)
    requires parser.Valid()
    requires saveProfile != DEFAULT_SECTION
    modifies parser
    ensures parser.Valid()
    ensures parser.Contents() == MergeAsWritten(old(parser.Contents()), saveProfile, output, region, creds)
  {
    ghost var loaded := parser.Contents();
    var present := parser.HasSection(saveProfile);
    if !present {
      parser.AddSection(saveProfile);
    }
    assert parser.sections[saveProfile] == Prior(loaded, saveProfile);
    SetManagedKeys(parser, saveProfile, output, region, creds);
  }

  /**
   * The five `set` calls: the managed entries override the profile's
   * entries, or the defaults when the name addresses the defaults.
   */
  method SetManagedKeys(parser: Parser.ConfigParser, saveProfile: string, output: string, region: string, creds: Credentials)
    requires parser.Valid()
    requires saveProfile in parser.sections
    modifies parser
    ensures parser.Valid()
    ensures parser.names == old(parser.names)
    ensures AddressesDefaults(saveProfile) ==>
      parser.defaults == old(parser.defaults) + ManagedEntries(output, region, creds) && parser.sections == old(parser.sections)
    ensures !AddressesDefaults(saveProfile) ==>
      parser.defaults == old(parser.defaults) &&
      parser.sections == old(parser.sections)[saveProfile := old(parser.sections[saveProfile]) + ManagedEntries(output, region, creds)]
  {
    ghost var base := parser.sections;
    ghost var prior := base[saveProfile];

    parser.Set(saveProfile, OUTPUT_KEY, output);
    ghost var e1 := prior[OUTPUT_KEY := output];
    parser.Set(saveProfile, REGION_KEY, region);
    ghost var e2 := e1[REGION_KEY := region];
    Overwrite(base, saveProfile, e1, e2);
    parser.Set(saveProfile, ACCESS_KEY_ID_KEY, creds.accessKeyId);
    ghost var e3 := e2[ACCESS_KEY_ID_KEY := creds.accessKeyId];
    Overwrite(base, saveProfile, e2, e3);
    parser.Set(saveProfile, SECRET_ACCESS_KEY_KEY, creds.secretAccessKey);
    ghost var e4 := e3[SECRET_ACCESS_KEY_KEY := creds.secretAccessKey];
    Overwrite(base, saveProfile, e3, e4);
    parser.Set(saveProfile, SESSION_TOKEN_KEY, creds.sessionToken);
    ghost var e5 := e4[SESSION_TOKEN_KEY := creds.sessionToken];
    Overwrite(base, saveProfile, e4, e5);
    ManagedUpdates(prior, output, region, creds);
    ManagedUpdates(old(parser.defaults), output, region, creds);
  }

  /**
   * `write_config`: makes sure the store directory exists, reads the store,
   * merges the credentials into the profile and writes the whole store back
   * to the same file.
   */
  method WriteConfig(config: Settings.Config, disk: FileSystem.Disk, home: string,
                     response: AssumeRoleResponse, saveProfile: string)
    requires disk.Valid()
    requires saveProfile != DEFAULT_SECTION
    modifies disk
    ensures disk.Valid()
    ensures disk.dirs == old(disk.dirs) + {Settings.ConfigDir(home)}
    ensures disk.files == old(disk.files)[Settings.CredentialsPath(home) :=
      MergeAsWritten(old(disk.Load(Settings.CredentialsPath(home))), saveProfile,
                     config.outputFormat, config.region, response.credentials)]
    ensures saveProfile != "" ==>
      (disk.files[Settings.CredentialsPath(home)] ==
       Merge(old(disk.Load(Settings.CredentialsPath(home))), saveProfile,
             config.outputFormat, config.region, response.credentials))
  {
    var configDir := home + Settings.AWS_CONFIG_DIR;
    var dirExists := disk.PathExists(configDir);
    if !dirExists {
      disk.MakeDirs(configDir);
    }

    var filename := home + Settings.AWS_CONFIG_FILE;
    var parser := new Parser.ConfigParser();
    parser.Read(disk, filename);
    PutCredentials(parser, saveProfile, config.outputFormat, config.region, response.credentials);
    disk.Write(filename, parser.Contents());
  }
}
