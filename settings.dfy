/**
 * What `NewCommand::execute` resolves before it touches the filesystem: the
 * option defaults, the two validations, the errors the command raises, the
 * replacement table, and the lookup of the latest Drupal release.
 */
module Settings {
  import opened Wrappers
  import opened Text
  import opened Paths

  /** The command line as the console component hands it over; an option never given is `None`. */
  datatype Input = Input(
    profile: string,
    directory: Option<string>,
    siteName: Option<string>,
    profileName: Option<string>,
    profileDescription: Option<string>,
    coreVersion: Option<string>,
    gitUrl: Option<string>,
    noRepo: bool)

  /** PHP truthiness of an option value: absent, `""` and `"0"` are all false. */
  predicate IsGiven(o: Option<string>)
  {
    o.Some? && o.value != "" && o.value != "0"
  }

  /** `$value ?: $fallback`. */
  function OrElse(o: Option<string>, fallback: string): string
  {
    if IsGiven(o) then o.value else fallback
  }

  const DefaultCoreVersion := "7"
  const GitUrlPrefix := "http://git.drupal.org/project/"

  /** The template subdirectory of a core version, `$coreVersion . '.x'`. */
  function CoreBranch(coreVersion: string): string
  {
    coreVersion + ".x"
  }

  datatype Settings = Settings(
    profile: string,
    dir: string,
    profileName: string,
    profileDesc: string,
    siteName: string,
    gitUrl: string,
    coreVersion: string,
    coreBranch: string,
    noRepo: bool)

  /** The option defaults; the site name falls back to the resolved profile name. */
  function Resolve(input: Input): (r: Settings)
    ensures r.profile == input.profile && r.noRepo == input.noRepo
    ensures r.coreBranch == CoreBranch(r.coreVersion)
  {
    var profileName := OrElse(input.profileName, input.profile);
    var coreVersion := OrElse(input.coreVersion, DefaultCoreVersion);
    Settings(
      input.profile,
      OrElse(input.directory, "./" + input.profile),
      profileName,
      OrElse(input.profileDescription, input.profile),
      OrElse(input.siteName, profileName),
      OrElse(input.gitUrl, GitUrlPrefix + input.profile + ".git"),
      coreVersion,
      CoreBranch(coreVersion),
      input.noRepo)
  }

  /** With no option given, every value derives from the profile, and the core version is 7. */
  lemma ResolveDefaults(input: Input)
    requires !IsGiven(input.directory) && !IsGiven(input.siteName) && !IsGiven(input.profileName)
    requires !IsGiven(input.profileDescription) && !IsGiven(input.coreVersion) && !IsGiven(input.gitUrl)
    ensures var p := input.profile;
      Resolve(input) == Settings(p, "./" + p, p, p, p, "http://git.drupal.org/project/" + p + ".git", "7", "7.x", input.noRepo)
  {
    assert CoreBranch("7") == "7.x";
  }

  /** Each option is used as given when it is truthy, and otherwise takes its own fallback, whatever the other options are. */
  lemma ResolveEachOption(input: Input)
    ensures var r, p := Resolve(input), input.profile;
      && r.dir == (if IsGiven(input.directory) then input.directory.value else "./" + p)
      && r.profileName == (if IsGiven(input.profileName) then input.profileName.value else p)
      && r.profileDesc == (if IsGiven(input.profileDescription) then input.profileDescription.value else p)
      && r.siteName == (if IsGiven(input.siteName) then input.siteName.value else r.profileName)
      && r.gitUrl == (if IsGiven(input.gitUrl) then input.gitUrl.value else "http://git.drupal.org/project/" + p + ".git")
      && r.coreVersion == (if IsGiven(input.coreVersion) then input.coreVersion.value else "7")
      && r.coreBranch == r.coreVersion + ".x"
  {
  }

  /** The site name follows the profile name when it is not given, whether or not that one is. */
  lemma SiteNameFollowsProfileName(input: Input)
    requires !IsGiven(input.siteName)
    ensures Resolve(input).siteName == (if IsGiven(input.profileName) then input.profileName.value else input.profile)
  {
  }

  /** An option set to `""` or `"0"` resolves exactly as an absent one. */
  lemma EmptyAndZeroAreAbsent(input: Input, v: string)
    requires v == "" || v == "0"
    ensures Resolve(input.(directory := Some(v))) == Resolve(input.(directory := None))
    ensures Resolve(input.(siteName := Some(v))) == Resolve(input.(siteName := None))
    ensures Resolve(input.(profileName := Some(v))) == Resolve(input.(profileName := None))
    ensures Resolve(input.(profileDescription := Some(v))) == Resolve(input.(profileDescription := None))
    ensures Resolve(input.(coreVersion := Some(v))) == Resolve(input.(coreVersion := None))
    ensures Resolve(input.(gitUrl := Some(v))) == Resolve(input.(gitUrl := None))
  {
  }

  /** A member of the character class `[a-zA-Z0-9_]`. */
  predicate IsWordChar(c: char)
  {
    'a' <= c <= 'z' || 'A' <= c <= 'Z' || '0' <= c <= '9' || c == '_'
  }

  /** `preg_match('/[^a-zA-Z0-9_]/', $profile)` finds a character outside the class. */
  predicate HasForbiddenChar(profile: string)
  {
    exists i | 0 <= i < |profile| :: !IsWordChar(profile[i])
  }

  /** Profile names containing a separator are rejected, so an accepted one is a plain file name. */
  lemma AcceptedProfileIsPlainName(profile: string)
    requires !HasForbiddenChar(profile)
    ensures IsPlainName(profile)
    ensures '.' !in profile && '{' !in profile && '-' !in profile
  {
  }

  /** The check only rejects characters outside the class: the empty name passes, `-`, space and `.` do not. */
  lemma ProfileCheckExamples()
    ensures !HasForbiddenChar("") && !HasForbiddenChar("acme_Distro2")
    ensures HasForbiddenChar("my-profile") && HasForbiddenChar("my profile") && HasForbiddenChar("my.profile")
  {
    assert !IsWordChar("my-profile"[2]);
    assert !IsWordChar("my profile"[2]);
    assert !IsWordChar("my.profile"[2]);
  }

  /** The failures `execute` can end with. */
  datatype Error =
    | CoreVersionNotValid(coreVersion: string)
    | ProfileNameNotValid
    | RequestFailed(url: string)
    | ReleaseNotFound
    | FileNotFound(filename: string)
    | RenameFailed(origin: string, target: string)
  {
    /** Raised by the command itself, with a message of its own. */
    predicate RaisedByCommand()
    {
      CoreVersionNotValid? || ProfileNameNotValid? || ReleaseNotFound? || FileNotFound?
    }
  }

  /** The exception message the command attaches to each of its own failures. */
  function Message(e: Error): string
    requires e.RaisedByCommand()
  {
    match e
    case CoreVersionNotValid(v) => "Core version not valid: " + v
    case ProfileNameNotValid => "Profile name must only contain letters, numbers, and underscores"
    case ReleaseNotFound => "Invalid response: Latest Drupal release not found."
    case FileNotFound(f) => "File not found: " + f
  }

  /**
   * The two validations, in the order `execute` runs them: the core branch
   * must be a directory of the template, then the profile name must be clean.
   */
  function Validate(templateDirs: set<string>, s: Settings): (r: Option<Error>)
    ensures r == Some(CoreVersionNotValid(s.coreVersion)) <==> s.coreBranch !in templateDirs
    ensures r == Some(ProfileNameNotValid) <==> s.coreBranch in templateDirs && exists i | 0 <= i < |s.profile| :: !IsWordChar(s.profile[i])
    ensures r == None <==> s.coreBranch in templateDirs && forall i | 0 <= i < |s.profile| :: IsWordChar(s.profile[i])
  {
    if s.coreBranch !in templateDirs then Some(CoreVersionNotValid(s.coreVersion))
    else if HasForbiddenChar(s.profile) then Some(ProfileNameNotValid)
    else None
  }

  /** A rejected run ends with the command's own exception, carrying the message of the check that failed. */
  lemma ValidationMessage(templateDirs: set<string>, s: Settings)
    requires Validate(templateDirs, s).Some?
    ensures Validate(templateDirs, s).value.RaisedByCommand()
    ensures s.coreBranch !in templateDirs ==> Message(Validate(templateDirs, s).value) == "Core version not valid: " + s.coreVersion
    ensures s.coreBranch in templateDirs ==>
      Message(Validate(templateDirs, s).value) == "Profile name must only contain letters, numbers, and underscores"
  {
  }

  /** `{{ <name> }}`, the form of every template variable. */
  function Token(name: string): string
  {
    "{{ " + name + " }}"
  }

  const VersionVar := "drupal.version"
  const GitUrlVar := "git.url"
  const ProfileVar := "profile"
  const ProfileNameVar := "profile.name"
  const ProfileDescVar := "profile.description"
  const SiteNameVar := "site.name"

  /** The replacement table of `execute`, in declaration order. */
  function Replacements(s: Settings, version: string): seq<(string, string)>
  {
    [ (Token(VersionVar), version),
      (Token(GitUrlVar), s.gitUrl),
      (Token(ProfileVar), s.profile),
      (Token(ProfileNameVar), s.profileName),
      (Token(ProfileDescVar), s.profileDesc),
      (Token(SiteNameVar), s.siteName) ]
  }

  /** Text without an opening brace passes through the pass for any variable. */
  lemma PlainTextKept(p: string, name: string, val: string)
    requires '{' !in p
    ensures ReplaceAll(p, Token(name), val) == p
  {
    ReplaceAllPlainPrefix(p, "", Token(name), val);
    assert p + "" == p;
  }

  /** The version pass on `a{{ profile }}b{{ drupal.version }}`. */
  lemma VersionPass(a: string, b: string, version: string)
    requires '{' !in a && '{' !in b
    ensures ReplaceAll(a + Token(ProfileVar) + b + Token(VersionVar), Token(VersionVar), version)
         == a + Token(ProfileVar) + b + version
  {
    VarNames();
    var tp, tv := Token(ProfileVar), Token(VersionVar);
    AppendAssociates4(a, tp, b, tv);
    ReplaceAllPlainPrefix(a, tp + (b + tv), tv, version);
    OtherTokenKept(ProfileVar, VersionVar, b + tv, version);
    ReplaceAllPlainPrefix(b, tv, tv, version);
    ReplaceAllTokenOnly(tv, version);
    AppendAssociates4(a, tp, b, version);
  }

  /** The passes after the version one on `a{{ profile }}b<version>`. */
  lemma GitUrlPass(a: string, b: string, version: string, gitUrl: string)
    requires '{' !in a && '{' !in b && '{' !in version
    ensures ReplaceAll(a + Token(ProfileVar) + b + version, Token(GitUrlVar), gitUrl)
         == a + Token(ProfileVar) + b + version
  {
    VarNames();
    var tp := Token(ProfileVar);
    AppendAssociates4(a, tp, b, version);
    ReplaceAllPlainPrefix(a, tp + (b + version), Token(GitUrlVar), gitUrl);
    OtherTokenKept(ProfileVar, GitUrlVar, b + version, gitUrl);
    PlainTextKept(b + version, GitUrlVar, gitUrl);
  }

  lemma ProfilePass(a: string, b: string, version: string, profile: string)
    requires '{' !in a && '{' !in b && '{' !in version
    ensures ReplaceAll(a + Token(ProfileVar) + b + version, Token(ProfileVar), profile)
         == a + profile + b + version
  {
    var tp := Token(ProfileVar);
    AppendAssociates4(a, tp, b, version);
    ReplaceAllPlainPrefix(a, tp + (b + version), tp, profile);
    ReplaceAllLeadingToken(b + version, tp, profile);
    PlainTextKept(b + version, ProfileVar, profile);
    AppendAssociates4(a, profile, b, version);
  }

  /**
   * A template `a{{ profile }}b{{ drupal.version }}` whose literal text holds
   * no brace expands to `a<profile>b<version>`, provided neither value holds
   * a brace either; the other variables do not disturb it.
   */
  lemma ExpandProfileAndVersion(s: Settings, version: string, a: string, b: string)
    requires '{' !in a && '{' !in b && '{' !in version && '{' !in s.profile
    ensures ReplaceVariables(Replacements(s, version), a + Token(ProfileVar) + b + Token(VersionVar))
         == a + s.profile + b + version
  {
    var reps := Replacements(s, version);
    var s0 := a + Token(ProfileVar) + b + Token(VersionVar);
    var s1 := a + Token(ProfileVar) + b + version;
    var s3 := a + s.profile + b + version;
    VersionPass(a, b, version);
    GitUrlPass(a, b, version, s.gitUrl);
    ProfilePass(a, b, version, s.profile);
    PlainTextKept(s3, ProfileNameVar, s.profileName);
    PlainTextKept(s3, ProfileDescVar, s.profileDesc);
    PlainTextKept(s3, SiteNameVar, s.siteName);
    calc {
      ReplaceVariables(reps, s0);
      ReplaceVariables(reps[1..], s1);
      ReplaceVariables(reps[2..], s1);
      { assert reps[1..][1..] == reps[2..]; }
      ReplaceVariables(reps[3..], s3);
      { assert reps[2..][1..] == reps[3..]; }
      ReplaceVariables(reps[4..], s3);
      { assert reps[3..][1..] == reps[4..]; }
      ReplaceVariables(reps[5..], s3);
      { assert reps[4..][1..] == reps[5..]; }
      ReplaceVariables(reps[6..], s3);
      { assert reps[5..][1..] == reps[6..]; assert reps[6..] == []; }
      s3;
    }
  }

  /** The example of the command's template: `name: {{ profile }}, v{{ drupal.version }}` for profile `acme` and version `8.1.0`. */
  lemma ExpansionExample(s: Settings)
    requires s.profile == "acme"
    ensures ReplaceVariables(Replacements(s, "8.1.0"), "name: " + "{{ profile }}" + ", v" + "{{ drupal.version }}")
         == "name: " + "acme" + ", v" + "8.1.0"
  {
    assert Token(ProfileVar) == "{{ profile }}";
    assert Token(VersionVar) == "{{ drupal.version }}";
    ExpandProfileAndVersion(s, "8.1.0", "name: ", ", v");
  }

  /**
   * The passes run one after another: a git URL that holds `{{ profile }}`
   * is expanded again by the later profile pass, so `{{ git.url }}` ends as
   * the profile name.
   */
  lemma GitUrlExpandedAgain(s: Settings, version: string)
    requires s.gitUrl == Token(ProfileVar) && '{' !in s.profile
    ensures ReplaceVariables(Replacements(s, version), Token(GitUrlVar)) == s.profile
  {
    var reps := Replacements(s, version);
    VarNames();
    OtherTokenKept(GitUrlVar, VersionVar, "", version);
    assert Token(GitUrlVar) + "" == Token(GitUrlVar);
    ReplaceAllTokenOnly(Token(GitUrlVar), s.gitUrl);
    ReplaceAllTokenOnly(Token(ProfileVar), s.profile);
    PlainTextKept(s.profile, ProfileNameVar, s.profileName);
    PlainTextKept(s.profile, ProfileDescVar, s.profileDesc);
    PlainTextKept(s.profile, SiteNameVar, s.siteName);
    calc {
      ReplaceVariables(reps, Token(GitUrlVar));
      ReplaceVariables(reps[1..], Token(GitUrlVar));
      ReplaceVariables(reps[2..], Token(ProfileVar));
      { assert reps[1..][1..] == reps[2..]; }
      ReplaceVariables(reps[3..], s.profile);
      { assert reps[2..][1..] == reps[3..]; }
      ReplaceVariables(reps[4..], s.profile);
      { assert reps[3..][1..] == reps[4..]; }
      ReplaceVariables(reps[5..], s.profile);
      { assert reps[4..][1..] == reps[5..]; }
      ReplaceVariables(reps[6..], s.profile);
      { assert reps[5..][1..] == reps[6..]; assert reps[6..] == []; }
      s.profile;
    }
  }

  /**
   * The site-name pass comes last, so `{{ site.name }}` ends as the site name
   * exactly, even when it holds other variables.
   */
  lemma SiteNameVerbatim(s: Settings, version: string)
    ensures ReplaceVariables(Replacements(s, version), Token(SiteNameVar)) == s.siteName
  {
    var reps := Replacements(s, version);
    var t := Token(SiteNameVar);
    VarNames();
    assert t + "" == t;
    OtherTokenKept(SiteNameVar, VersionVar, "", version);
    OtherTokenKept(SiteNameVar, GitUrlVar, "", s.gitUrl);
    OtherTokenKept(SiteNameVar, ProfileVar, "", s.profile);
    OtherTokenKept(SiteNameVar, ProfileNameVar, "", s.profileName);
    OtherTokenKept(SiteNameVar, ProfileDescVar, "", s.profileDesc);
    ReplaceAllLeadingToken("", t, s.siteName);
    calc {
      ReplaceVariables(reps, t);
      ReplaceVariables(reps[1..], t);
      ReplaceVariables(reps[2..], t);
      { assert reps[1..][1..] == reps[2..]; }
      ReplaceVariables(reps[3..], t);
      { assert reps[2..][1..] == reps[3..]; }
      ReplaceVariables(reps[4..], t);
      { assert reps[3..][1..] == reps[4..]; }
      ReplaceVariables(reps[5..], t);
      { assert reps[4..][1..] == reps[5..]; }
      ReplaceVariables(reps[6..], s.siteName);
      { assert reps[5..][1..] == reps[6..]; assert reps[6..] == []; }
      s.siteName;
    }
  }

  /** A variable name of the form the table uses: no braces and no spaces. */
  predicate IsVarName(name: string)
  {
    '{' !in name && '}' !in name && ' ' !in name
  }

  /** The pass for one variable leaves an occurrence of another variable in place. */
  lemma {:induction false} OtherTokenKept(a: string, b: string, rest: string, val: string)
    requires IsVarName(a) && IsVarName(b) && a != b
    ensures ReplaceAll(Token(a) + rest, Token(b), val) == Token(a) + ReplaceAll(rest, Token(b), val)
  {
    var s, tok := Token(a) + rest, Token(b);
    forall j | 0 <= j < |Token(a)|
      ensures !OccursAt(s, tok, j)
    {
      if j + |tok| <= |s| {
        if j == 0 {
          TokensDiffer(a, b, rest);
        } else if j < 3 {
          assert s[j + 1] != tok[1];
        } else if j < 3 + |a| {
          assert s[j] == a[j - 3] && a[j - 3] in a;
          assert s[j..j + |tok|][0] != tok[0];
        } else {
          assert s[j..j + |tok|][0] != tok[0];
        }
      }
    }
    ReplaceAllSkips(s, tok, val, |Token(a)|);
    assert s[..|Token(a)|] == Token(a) && s[|Token(a)|..] == rest;
  }

  /** The text following `{{ a }}` cannot complete it into `{{ b }}` for another name `b`. */
  lemma TokensDiffer(a: string, b: string, rest: string)
    requires IsVarName(a) && IsVarName(b) && a != b
    ensures !OccursAt(Token(a) + rest, Token(b), 0)
  {
    var s, tok := Token(a) + rest, Token(b);
    if |tok| <= |s| {
      if |a| < |b| {
        assert s[3 + |a|] == ' ';
        assert tok[3 + |a|] == b[|a|] && b[|a|] in b;
      } else if |b| < |a| {
        assert tok[3 + |b|] == ' ';
        assert s[3 + |b|] == a[|b|] && a[|b|] in a;
      } else {
        assert s[3..3 + |a|] == a && tok[3..3 + |b|] == b;
      }
    }
  }

  /** The variable names of the table are distinct and free of braces and spaces. */
  lemma VarNames()
    ensures IsVarName(VersionVar) && IsVarName(GitUrlVar) && IsVarName(ProfileVar)
    ensures IsVarName(ProfileNameVar) && IsVarName(ProfileDescVar) && IsVarName(SiteNameVar)
    ensures VersionVar != GitUrlVar && GitUrlVar != ProfileVar && ProfileVar != ProfileNameVar
    ensures ProfileVar != ProfileDescVar && ProfileVar != SiteNameVar && VersionVar != ProfileVar
    ensures GitUrlVar != ProfileNameVar && GitUrlVar != ProfileDescVar && GitUrlVar != SiteNameVar
  {
    LowerDotted(VersionVar);
    LowerDotted(GitUrlVar);
    LowerDotted(ProfileVar);
    LowerDotted(ProfileNameVar);
    LowerDotted(ProfileDescVar);
    LowerDotted(SiteNameVar);
    assert GitUrlVar[0] != ProfileVar[0];
  }

  /** A name made of lower-case letters and dots is a variable name. */
  lemma LowerDotted(name: string)
    requires forall i :: 0 <= i < |name| ==> 'a' <= name[i] <= 'z' || name[i] == '.'
    ensures IsVarName(name)
  {
  }

  const UpdatesUrl := "http://updates.drupal.org/release-history/drupal"

  /** The release-history document requested for a core branch. */
  function ReleaseHistoryUrl(coreBranch: string): string
  {
    UpdatesUrl + "/" + coreBranch
  }

  /**
   * What the HTTP request yields: a transport or parse failure, or the text of
   * each node `/project/releases/release[1]/version` selects in the document.
   */
  datatype Response = Unreachable | Document(versions: seq<string>)

  /** `getLatestDrupalVersion` after the request: the first version node, or the command's own error. */
  function LatestVersion(response: Response, url: string): (r: Result<string, Error>)
    ensures response.Unreachable? ==> r == Failure(RequestFailed(url))
    ensures response.Document? && response.versions == [] ==> r == Failure(ReleaseNotFound)
    ensures response.Document? && response.versions != [] ==> r == Success(response.versions[0])
  {
    match response
    case Unreachable => Failure(RequestFailed(url))
    case Document(versions) => if |versions| == 0 then Failure(ReleaseNotFound) else Success(versions[0])
  }

  /** The HTTP client, with the responses of the remote service fixed and each request logged. */
  class UpdatesClient {
    const feed: string -> Response
    var requested: seq<string>

    constructor (feed: string -> Response)
      ensures this.feed == feed && requested == []
    {
      this.feed := feed;
      requested := [];
    }

    method Get(url: string) returns (response: Response)
      modifies this
      ensures requested == old(requested) + [url]
      ensures response == feed(url)
    {
      requested := requested + [url];
      response := feed(url);
    }
  }

  /** `getLatestDrupalVersion`: one request for the branch's release history, then its first release. */
  method GetLatestDrupalVersion(http: UpdatesClient, coreBranch: string) returns (r: Result<string, Error>)
    modifies http
    ensures http.requested == old(http.requested) + [ReleaseHistoryUrl(coreBranch)]
    ensures r == LatestVersion(http.feed(ReleaseHistoryUrl(coreBranch)), ReleaseHistoryUrl(coreBranch))
  {
    var url := ReleaseHistoryUrl(coreBranch);
    var response := http.Get(url);
    r := LatestVersion(response, url);
  }
}
