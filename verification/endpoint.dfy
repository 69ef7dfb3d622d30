/** The command-line side of the restore tool: the storage URI and container
    name validators, the account name the constructor cuts out of the URI,
    and the choice between a named-key and an ambient credential. */
module Endpoint {
  import opened Wrappers
  import opened Text

  /** Python's truthiness of a string: only the empty string is false. */
  predicate Truthy(s: string) {
    s != []
  }

  // ---------------------------------------------------------------------
  // Container names
  // ---------------------------------------------------------------------

  /** Why a container name was refused, in the order the checks run. */
  datatype ContainerError = LengthOutOfRange | IllegalCharacter | HyphenAtEdge

  /** The message each refusal raises. */
  function ContainerMessage(e: ContainerError): string {
    match e
    case LengthOutOfRange => "Container name must be between 3 and 63 characters"
    case IllegalCharacter => "Container name can only contain lowercase letters, numbers and hyphens"
    case HyphenAtEdge => "Container name cannot start or end with a hyphen"
  }

  /** One character of `[a-z0-9-]`. */
  predicate IsContainerChar(c: char) {
    'a' <= c <= 'z' || '0' <= c <= '9' || c == '-'
  }

  /** The whole of `s` matches `[a-z0-9-]+`. */
  predicate AllContainerChars(s: string) {
    |s| > 0 && forall i :: 0 <= i < |s| ==> IsContainerChar(s[i])
  }

  /** Ends with a newline: the one extra character Python's `$` lets through
      at the end of a string. */
  predicate EndsWithNewline(s: string) {
    |s| > 0 && s[|s| - 1] == '\n'
  }

  /** `re.match(r"^[a-z0-9-]+$", name)` as Python evaluates it: `$` matches
      at the very end and also just before a final newline. */
  predicate ContainerPatternAsWritten(name: string) {
    AllContainerChars(name) ||
    (EndsWithNewline(name) && AllContainerChars(name[..|name| - 1]))
  }

  /** A well-formed container name: 3 to 63 characters of `[a-z0-9-]`, with
      no hyphen at either end. */
  predicate IsContainerName(name: string) {
    3 <= |name| <= 63 && AllContainerChars(name) &&
    name[0] != '-' && name[|name| - 1] != '-'
  }

  /** `validate_container_name` as written: length first, then the pattern
      (with the newline allowance of `$`), then the hyphens. */
  function ValidateContainerNameAsWritten(name: string): (r: Result<string, ContainerError>)
    ensures r.Ok? ==> r.value == name
    ensures r == Err(LengthOutOfRange) <==> !(3 <= |name| <= 63)
    ensures r.Ok? <==> 3 <= |name| <= 63 && ContainerPatternAsWritten(name) &&
                       name[0] != '-' && name[|name| - 1] != '-'
  {
    if !(3 <= |name| <= 63) then Err(LengthOutOfRange)
    else if !ContainerPatternAsWritten(name) then Err(IllegalCharacter)
    else if name[0] == '-' || name[|name| - 1] == '-' then Err(HyphenAtEdge)
    else Ok(name)
  }

  /** `validate_container_name` with the pattern anchored at the true end of
      the string: it accepts exactly the well-formed names, and it reports
      the first check that fails. */
  function ValidateContainerName(name: string): (r: Result<string, ContainerError>)
    ensures r.Ok? <==> IsContainerName(name)
    ensures r.Ok? ==> r.value == name
    ensures r == Err(LengthOutOfRange) <==> !(3 <= |name| <= 63)
    ensures r == Err(IllegalCharacter) <==> 3 <= |name| <= 63 && !AllContainerChars(name)
  {
    if !(3 <= |name| <= 63) then Err(LengthOutOfRange)
    else if !AllContainerChars(name) then Err(IllegalCharacter)
    else if name[0] == '-' || name[|name| - 1] == '-' then Err(HyphenAtEdge)
    else Ok(name)
  }

  /** The two validators agree on every name that does not end with a
      newline. */
  lemma ContainerValidatorsAgree(name: string)
    requires !EndsWithNewline(name)
    ensures ValidateContainerNameAsWritten(name) == ValidateContainerName(name)
  {
  }

  /** The validator as written accepts a well-formed name followed by a
      newline, which the corrected one refuses: "abc\n" is one. */
  lemma ContainerTrailingNewline(name: string)
    requires IsContainerName(name) && |name| < 63
    ensures ValidateContainerNameAsWritten(name + "\n") == Ok(name + "\n")
    ensures ValidateContainerName(name + "\n") == Err(IllegalCharacter)
  {
    var s := name + "\n";
    assert s[..|s| - 1] == name;
    assert !IsContainerChar(s[|s| - 1]);
  }

  lemma ContainerTrailingNewlineExample()
    ensures ValidateContainerNameAsWritten("abc\n").Ok?
    ensures ValidateContainerName("abc\n").Err?
  {
    assert "abc" + "\n" == "abc\n";
    ContainerTrailingNewline("abc");
  }

  // ---------------------------------------------------------------------
  // Storage URIs
  // ---------------------------------------------------------------------

  /** The two endpoints the pattern admits. */
  datatype Service = Blob | Dfs

  function ServiceLabel(s: Service): string {
    match s
    case Blob => "blob"
    case Dfs => "dfs"
  }

  /** A storage account endpoint, `https://<account>.<service>.core.windows.net`. */
  datatype StorageUri = StorageUri(account: string, service: Service)

  const Scheme: string := "https://"
  const Domain: string := ".core.windows.net"

  /** An account name as the pattern spells it: `[a-z0-9]{3,24}`. */
  predicate IsAccountName(a: string) {
    3 <= |a| <= 24 && forall i :: 0 <= i < |a| ==> 'a' <= a[i] <= 'z' || '0' <= a[i] <= '9'
  }

  /** The host name after the account's dot, for each service. */
  function ServiceHost(s: Service): string {
    ServiceLabel(s) + Domain
  }

  /** The host suffix that follows the account for each service. */
  function HostSuffix(s: Service): string {
    "." + ServiceHost(s)
  }

  /** The text of an endpoint. */
  function UriText(u: StorageUri): string {
    Scheme + (u.account + HostSuffix(u.service))
  }

  predicate StartsWith(s: string, prefix: string) {
    |prefix| <= |s| && s[..|prefix|] == prefix
  }

  predicate EndsWith(s: string, suffix: string) {
    |suffix| <= |s| && s[|s| - |suffix|..] == suffix
  }

  /** A concatenation starts with its first part and ends with its second. */
  lemma ConcatParts(a: string, b: string)
    ensures StartsWith(a + b, a) && (a + b)[|a|..] == b
    ensures EndsWith(a + b, b) && (a + b)[..|a + b| - |b|] == a
  {
  }

  /** Cutting a string and putting the pieces back together gives it back. */
  lemma Rejoin(s: string, k: int)
    requires 0 <= k <= |s|
    ensures s[..k] + s[k..] == s
  {
  }

  /** Reads `uri` as an endpoint: the scheme, an account name and one of the
      two host suffixes, and nothing else. */
  function ParseStorageUri(uri: string): Option<StorageUri> {
    if !StartsWith(uri, Scheme) then None
    else
      var rest := uri[|Scheme|..];
      var service := if EndsWith(rest, HostSuffix(Blob)) then Blob else Dfs;
      if !EndsWith(rest, HostSuffix(service)) then None
      else
        var account := rest[..|rest| - |HostSuffix(service)|];
        if IsAccountName(account) then Some(StorageUri(account, service)) else None
  }

  /** What the parser reads is a well-formed endpoint whose text is exactly
      the input. */
  lemma ParseSound(uri: string)
    ensures ParseStorageUri(uri).Some? ==>
      IsAccountName(ParseStorageUri(uri).value.account) && UriText(ParseStorageUri(uri).value) == uri
  {
    if ParseStorageUri(uri).Some? {
      var u := ParseStorageUri(uri).value;
      var rest := uri[|Scheme|..];
      var h := HostSuffix(u.service);
      Rejoin(uri, |Scheme|);
      Rejoin(rest, |rest| - |h|);
    }
  }

  /** The dfs host suffix is one character shorter than the blob one, so
      in an endpoint the blob suffix would have to start inside the account,
      which holds no '.'. */
  lemma DfsHostIsNotBlob(a: string)
    requires IsAccountName(a)
    ensures !EndsWith(a + HostSuffix(Dfs), HostSuffix(Blob))
  {
    var rest := a + HostSuffix(Dfs);
    var b := HostSuffix(Blob);
    assert |rest| - |b| == |a| - 1;
    assert rest[|a| - 1] == a[|a| - 1] != b[0];
    assert rest[|rest| - |b|..][0] != b[0];
  }

  /** Every well-formed endpoint is read back from its text. */
  lemma ParseUriText(u: StorageUri)
    requires IsAccountName(u.account)
    ensures ParseStorageUri(UriText(u)) == Some(u)
  {
    var rest := u.account + HostSuffix(u.service);
    ConcatParts(Scheme, rest);
    ConcatParts(u.account, HostSuffix(u.service));
    if u.service == Dfs {
      DfsHostIsNotBlob(u.account);
    }
  }

  /** A text the parser refuses is no endpoint's text. */
  lemma NoEndpointText(uri: string)
    requires ParseStorageUri(uri).None?
    ensures forall u: StorageUri :: IsAccountName(u.account) ==> UriText(u) != uri
  {
    forall u: StorageUri | IsAccountName(u.account) ensures UriText(u) != uri {
      ParseUriText(u);
    }
  }

  /** The one way a URI is refused. */
  datatype UriError = InvalidUriFormat

  /** The message the refusal raises. */
  function UriMessage(e: UriError): string {
    "Invalid storage account URI format. Expected format: https://<account-name>.(blob|dfs).core.windows.net"
  }

  /** `re.match(pattern, uri)` for the endpoint pattern as Python evaluates
      it: a well-formed endpoint, possibly followed by one newline. */
  predicate UriPatternAsWritten(uri: string) {
    ParseStorageUri(uri).Some? ||
    (EndsWithNewline(uri) && ParseStorageUri(uri[..|uri| - 1]).Some?)
  }

  /** `validate_storage_uri` as written: the URI comes back unchanged when
      the pattern matches in Python's sense. */
  function ValidateStorageUriAsWritten(uri: string): (r: Result<string, UriError>)
    ensures r.Ok? <==> UriPatternAsWritten(uri)
    ensures r.Ok? ==> r.value == uri
  {
    if UriPatternAsWritten(uri) then Ok(uri)
    else Err(InvalidUriFormat)
  }

  /** `validate_storage_uri` with the pattern anchored at the true end: it
      accepts exactly the texts of well-formed endpoints. */
  function ValidateStorageUri(uri: string): (r: Result<string, UriError>)
    ensures r.Ok? <==> exists u: StorageUri :: IsAccountName(u.account) && UriText(u) == uri
    ensures r.Ok? ==> r.value == uri
  {
    ParseSound(uri);
    if ParseStorageUri(uri).Some? then Ok(uri)
    else
      NoEndpointText(uri);
      Err(InvalidUriFormat)
  }

  /** The two URI validators agree on every URI that does not end with a
      newline. */
  lemma UriValidatorsAgree(uri: string)
    requires !EndsWithNewline(uri)
    ensures ValidateStorageUriAsWritten(uri).Ok? == ValidateStorageUri(uri).Ok?
  {
  }

  /** The validator as written accepts a well-formed endpoint followed by a
      newline, which the corrected one refuses. */
  lemma UriTrailingNewline(u: StorageUri)
    requires IsAccountName(u.account)
    ensures ValidateStorageUriAsWritten(UriText(u) + "\n").Ok?
    ensures ValidateStorageUri(UriText(u) + "\n").Err?
  {
    var s := UriText(u) + "\n";
    assert EndsWithNewline(s) && s[..|s| - 1] == UriText(u);
    ParseUriText(u);
    assert UriPatternAsWritten(s);
    NewlineIsNoEndpoint(UriText(u));
  }

  /** No endpoint text ends with a newline. */
  lemma NewlineIsNoEndpoint(t: string)
    ensures ParseStorageUri(t + "\n").None?
  {
    var s := t + "\n";
    ParseSound(s);
    forall v: StorageUri ensures UriText(v) != s {
      UriTextEndsWithT(v);
    }
  }

  /** Every endpoint text ends with the `t` of `.net`. */
  lemma UriTextEndsWithT(v: StorageUri)
    ensures |UriText(v)| > 0 && UriText(v)[|UriText(v)| - 1] == 't'
  {
    var h := HostSuffix(v.service);
    assert h == ("." + ServiceLabel(v.service)) + Domain;
    assert h[|h| - 1] == 't';
    assert (v.account + h)[|v.account + h| - 1] == 't';
  }

  // ---------------------------------------------------------------------
  // Account name and credential
  // ---------------------------------------------------------------------

  /** `uri.split('//')[1]`: what lies between the first `//` and the next
      one (or the end); None where Python raises `IndexError` because there
      is no `//`. */
  function AfterScheme(uri: string): (r: Option<string>)
    ensures r.None? <==> !Contains(uri, "//")
  {
    var i := Find(uri, "//");
    if i < 0 then None
    else
      var rest := uri[i + 2..];
      var j := Find(rest, "//");
      Some(if j < 0 then rest else rest[..j])
  }

  /** `storage_uri.split('//')[1].split('.')[0]`. */
  function AccountName(uri: string): (r: Option<string>)
    ensures r.None? <==> !Contains(uri, "//")
    ensures r.Some? ==> '.' !in r.value
  {
    match AfterScheme(uri)
    case None => None
    case Some(host) => Some(Split(host, '.')[0])
  }

  /** A string without `/` has no `//` in it. */
  lemma NoSlashNoDoubleSlash(s: string)
    requires '/' !in s
    ensures Find(s, "//") < 0
  {
    ContainsFirstChar(s, "//");
  }

  /** `Find` returns the first occurrence. */
  lemma FindFirst(s: string, p: string, i: int)
    requires OccursAt(s, p, i)
    requires forall j :: 0 <= j < i ==> !OccursAt(s, p, j)
    ensures Find(s, p) == i
  {
  }

  /** In an endpoint, the first `//` is the one after `https:`. */
  lemma SchemeSeparator(rest: string)
    ensures Find(Scheme + rest, "//") == 6
  {
    var uri := Scheme + rest;
    assert forall k :: 0 <= k < 8 ==> uri[k] == Scheme[k];
    assert uri[6..8] == "//";
    forall j | 0 <= j < 6 ensures !OccursAt(uri, "//", j) {
      assert uri[j + 1] != '/' || uri[j] != '/';
    }
    FindFirst(uri, "//", 6);
  }

  /** The account name cut out of a well-formed endpoint is its account. */
  lemma AccountNameOfUri(u: StorageUri)
    requires IsAccountName(u.account)
    ensures AccountName(UriText(u)) == Some(u.account)
  {
    AccountNameWithTail(u, []);
    assert UriText(u) + [] == UriText(u);
  }

  /** The same holds whatever follows the endpoint, as long as it holds no
      `/`: a final newline, say. */
  lemma AccountNameWithTail(u: StorageUri, extra: string)
    requires IsAccountName(u.account) && '/' !in extra
    ensures AccountName(UriText(u) + extra) == Some(u.account)
  {
    var tail := ServiceHost(u.service) + extra;
    ServiceHostHasNoSlash(u.service);
    assert '/' !in u.account && '.' !in u.account;
    assert UriText(u) + extra == Scheme + (u.account + ['.'] + tail);
    AccountNameOfParts(u.account, tail);
  }

  lemma ServiceHostHasNoSlash(s: Service)
    ensures '/' !in ServiceHost(s)
  {
    assert '/' !in Domain;
  }

  /** After the scheme, the account is whatever precedes the first '.',
      provided no '/' follows the scheme. */
  lemma AccountNameOfParts(a: string, tail: string)
    requires '.' !in a && '/' !in a && '/' !in tail
    ensures AccountName(Scheme + (a + ['.'] + tail)) == Some(a)
  {
    var rest := a + ['.'] + tail;
    SchemeSeparator(rest);
    ConcatParts(Scheme, rest);
    assert '/' !in rest;
    NoSlashNoDoubleSlash(rest);
    assert AfterScheme(Scheme + rest) == Some(rest);
    SplitHead(a, tail, '.');
  }

  /** The endpoint a URI accepted by the validator as written names: the URI
      itself, or the URI without its final newline. */
  function AcceptedEndpoint(uri: string): (r: Option<StorageUri>)
    ensures r.Some? <==> ValidateStorageUriAsWritten(uri).Ok?
  {
    if ParseStorageUri(uri).Some? then ParseStorageUri(uri)
    else if EndsWithNewline(uri) then ParseStorageUri(uri[..|uri| - 1])
    else None
  }

  /** An accepted URI is its endpoint's text, possibly with a newline after
      it, and the account name the constructor cuts out of it is that
      endpoint's account. */
  lemma AcceptedAccountName(uri: string)
    requires ValidateStorageUriAsWritten(uri).Ok?
    ensures var u := AcceptedEndpoint(uri).value;
      IsAccountName(u.account) &&
      (uri == UriText(u) || uri == UriText(u) + "\n") &&
      AccountName(uri) == Some(u.account)
  {
    if ParseStorageUri(uri).Some? {
      ParsedAccountName(uri, []);
      assert uri + [] == uri;
    } else {
      assert UriPatternAsWritten(uri);
      assert EndsWithNewline(uri);
      var p := uri[..|uri| - 1];
      assert ParseStorageUri(p).Some?;
      StripNewline(uri);
      ParsedAccountName(p, "\n");
    }
  }

  /** A text ending with a newline is what precedes it plus "\n". */
  lemma StripNewline(s: string)
    requires EndsWithNewline(s)
    ensures s == s[..|s| - 1] + "\n"
  {
    assert s == s[..|s| - 1] + [s[|s| - 1]];
  }

  /** A parsed endpoint followed by text without '/' still yields the
      endpoint's account. */
  lemma ParsedAccountName(p: string, extra: string)
    requires ParseStorageUri(p).Some? && '/' !in extra
    ensures var u := ParseStorageUri(p).value;
      IsAccountName(u.account) && p == UriText(u) && AccountName(p + extra) == Some(u.account)
  {
    ParseSound(p);
    AccountNameWithTail(ParseStorageUri(p).value, extra);
  }

  /** The credential `__init__` builds. */
  datatype Credential = NamedKey(account: string, key: string) | Ambient

  /** `__init__`'s choice of credential: a non-empty access key gives a
      named-key credential for the account cut out of the URI; no key or an
      empty one gives the ambient credential. None where the constructor
      raises because the URI has no `//`. */
  function ChooseCredential(uri: string, accessKey: Option<string>): (r: Option<Credential>)
    ensures r == Some(Ambient) <==> accessKey.None? || !Truthy(accessKey.value)
    ensures r.None? <==> accessKey.Some? && Truthy(accessKey.value) && !Contains(uri, "//")
    ensures r.Some? && r.value.NamedKey? ==>
      accessKey == Some(r.value.key) && AccountName(uri) == Some(r.value.account)
  {
    match accessKey
    case None => Some(Ambient)
    case Some(key) =>
      if !Truthy(key) then Some(Ambient)
      else
        match AccountName(uri)
        case None => None
        case Some(account) => Some(NamedKey(account, key))
  }

  /** What the command line hands to the manager once both validators have
      passed. */
  datatype Settings = Settings(storageUri: string, container: string, credential: Credential)

  datatype SettingsError = BadUri(uriError: UriError) | BadContainer(containerError: ContainerError)

  /** The `__main__` block up to constructing the manager, as written:
      validate the URI, then the container name, with the validators as
      Python runs them, then choose the credential. */
  function Configure(uri: string, container: string, accessKey: Option<string>): (r: Result<Settings, SettingsError>)
    ensures r.Ok? ==> r.value.storageUri == uri && r.value.container == container
    ensures r.Ok? <==> ValidateStorageUriAsWritten(uri).Ok? && ValidateContainerNameAsWritten(container).Ok?
  {
    match ValidateStorageUriAsWritten(uri)
    case Err(m) => Err(BadUri(m))
    case Ok(_) =>
      match ValidateContainerNameAsWritten(container)
      case Err(e) => Err(BadContainer(e))
      case Ok(_) =>
        AcceptedAccountName(uri);
        match ChooseCredential(uri, accessKey)
        case Some(c) => Ok(Settings(uri, container, c))
        case None => assert false; Err(BadUri(InvalidUriFormat))
  }

  /** Once the URI and the container name have been accepted the constructor
      never raises, and a non-empty key is paired with the account of the
      endpoint the URI names. */
  lemma ConfigureCredential(uri: string, container: string, accessKey: Option<string>)
    requires ValidateStorageUriAsWritten(uri).Ok? && ValidateContainerNameAsWritten(container).Ok?
    ensures Configure(uri, container, accessKey).Ok?
    ensures var s := Configure(uri, container, accessKey).value;
      var u := AcceptedEndpoint(uri).value;
      if accessKey.Some? && Truthy(accessKey.value)
      then s.credential == NamedKey(u.account, accessKey.value)
      else s.credential == Ambient
  {
    AcceptedAccountName(uri);
  }

  /** The same block with both patterns anchored at the true end of the
      input. */
  function ConfigureStrict(uri: string, container: string, accessKey: Option<string>): (r: Result<Settings, SettingsError>)
    ensures r.Ok? ==> r.value.storageUri == uri && r.value.container == container
    ensures r.Ok? <==> ValidateStorageUri(uri).Ok? && ValidateContainerName(container).Ok?
  {
    match ValidateStorageUri(uri)
    case Err(m) => Err(BadUri(m))
    case Ok(_) =>
      match ValidateContainerName(container)
      case Err(e) => Err(BadContainer(e))
      case Ok(_) =>
        ParseSound(uri);
        var u := ParseStorageUri(uri).value;
        AccountNameOfUri(u);
        match ChooseCredential(uri, accessKey)
        case Some(c) => Ok(Settings(uri, container, c))
        case None => assert false; Err(BadUri(InvalidUriFormat))
  }

  /** The two configurations agree on every input without a final newline. */
  lemma ConfigureAgree(uri: string, container: string, accessKey: Option<string>)
    requires !EndsWithNewline(uri) && !EndsWithNewline(container)
    ensures Configure(uri, container, accessKey) == ConfigureStrict(uri, container, accessKey)
  {
    ContainerValidatorsAgree(container);
    UriValidatorsAgree(uri);
  }

  /** As written, an endpoint followed by a newline configures a manager
      for that endpoint's account; the strict configuration refuses it. */
  lemma ConfigureTrailingNewline(u: StorageUri, container: string, accessKey: Option<string>)
    requires IsAccountName(u.account) && IsContainerName(container)
    ensures AcceptedEndpoint(UriText(u) + "\n") == Some(u)
    ensures Configure(UriText(u) + "\n", container, accessKey).Ok?
    ensures ConfigureStrict(UriText(u) + "\n", container, accessKey) == Err(BadUri(InvalidUriFormat))
  {
    var s := UriText(u) + "\n";
    UriTrailingNewline(u);
    NewlineIsNoEndpoint(UriText(u));
    ParseUriText(u);
    assert s[..|s| - 1] == UriText(u);
    assert !EndsWithNewline(container);
    ContainerValidatorsAgree(container);
  }
}
