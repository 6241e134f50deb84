/** Dataset metadata, password redaction of URLs, and the scheme and read-group checks on alignment files. */
module Data {
  import opened Wrappers
  import opened Text

  /** Identifier of the built-in synthetic dataset. */
  const FAKE_DATA_ID: string := "builtin-fake-data"

  /** A dataset: its identifier, the path of its alignment file and the sample name it holds. */
  datatype MetaData = MetaData(id: string, path: string, sample: string)

  /** The metadata record of the synthetic dataset. */
  function FakeData(): (r: MetaData)
    ensures r.id == FAKE_DATA_ID && r.sample == "fake"
  {
    MetaData(FAKE_DATA_ID, "file:///path/to/fake.bam", "fake")
  }

  /** Python truthiness of an optional string: present and non-empty. */
  predicate Truthy(o: Option<string>) {
    o.Some? && o.value != ""
  }

  /**
   * The netloc that `redacted_urlunparse` puts into the URL: the username, then `":"` and
   * `redactWith` in place of the password, then `"@"` and the hostname. The port is dropped.
   */
  function RedactedNetloc(username: Option<string>, password: Option<string>, hostname: Option<string>, redactWith: string): (r: string)
    ensures !Truthy(username) && !Truthy(password) ==> r == if Truthy(hostname) then hostname.value else ""
    ensures Truthy(username) ==> username.value <= r
    ensures Truthy(hostname) ==> |hostname.value| <= |r| && r[|r| - |hostname.value|..] == hostname.value
  {
    var user := if Truthy(username) then username.value else "";
    var pass := if Truthy(password) then ":" + redactWith else "";
    var info := user + pass;
    if Truthy(hostname) then
      (if Truthy(username) || Truthy(password) then info + "@" else "") + hostname.value
    else info
  }

  /** The password's text never reaches the netloc: only whether there is one matters. */
  lemma RedactionHidesPassword(username: Option<string>, p1: Option<string>, p2: Option<string>, hostname: Option<string>, redactWith: string)
    requires Truthy(p1) == Truthy(p2)
    ensures RedactedNetloc(username, p1, hostname, redactWith) == RedactedNetloc(username, p2, hostname, redactWith)
  {
  }

  /** With `"@"`-free parts, the netloc holds an `"@"` exactly when there is a hostname and something before it. */
  lemma AtSignIff(username: Option<string>, password: Option<string>, hostname: Option<string>, redactWith: string)
    requires username.Some? ==> '@' !in username.value
    requires hostname.Some? ==> '@' !in hostname.value
    requires '@' !in redactWith
    ensures '@' in RedactedNetloc(username, password, hostname, redactWith) <==>
      Truthy(hostname) && (Truthy(username) || Truthy(password))
  {
    var user := if Truthy(username) then username.value else "";
    var pass := if Truthy(password) then ":" + redactWith else "";
    assert '@' !in user + pass;
    if Truthy(hostname) && (Truthy(username) || Truthy(password)) {
      var r := RedactedNetloc(username, password, hostname, redactWith);
      assert r[|user + pass|] == '@';
    }
  }

  /** Index of the first `c` in `s`. */
  function FirstIndex(s: string, c: char): (r: Option<nat>)
    ensures r.None? <==> c !in s
    ensures r.Some? ==> r.value < |s| && s[r.value] == c && c !in s[..r.value]
  {
    if s == [] then None
    else if s[0] == c then Some(0)
    else
      match FirstIndex(s[1..], c)
      case None => None
      case Some(i) =>
        assert s[..i + 1] == [s[0]] + s[1..][..i];
        Some(i + 1)
  }

  /** Index of the last `c` in `s`. */
  function LastIndex(s: string, c: char): (r: Option<nat>)
    ensures r.None? <==> c !in s
    ensures r.Some? ==> r.value < |s| && s[r.value] == c && c !in s[r.value + 1..]
    decreases |s|
  {
    if s == [] then None
    else if s[|s| - 1] == c then Some(|s| - 1)
    else
      var init := s[..|s| - 1];
      assert s == init + [s[|s| - 1]];
      match LastIndex(init, c)
      case None => None
      case Some(i) =>
        assert s[i + 1..] == init[i + 1..] + [s[|s| - 1]];
        Some(i)
  }

  /** `s.partition(c)`: text before the first `c`, whether there was one, text after it. */
  function Partition(s: string, c: char): (string, bool, string) {
    match FirstIndex(s, c)
    case None => (s, false, "")
    case Some(i) => (s[..i], true, s[i + 1..])
  }

  /** `s.rpartition(c)`: text before the last `c`, whether there was one, text after it. */
  function RPartition(s: string, c: char): (string, bool, string) {
    match LastIndex(s, c)
    case None => ("", false, s)
    case Some(i) => (s[..i], true, s[i + 1..])
  }

  /**
   * How a URL parser reads username, password and hostname back out of a netloc, following
   * the userinfo/hostinfo split of Python's `urllib.parse` for netlocs without `[`:
   * userinfo is everything before the last `"@"`, split at its first `":"`; the hostname is
   * what follows the last `"@"`, up to a `":"`, and absent when empty.
   */
  function ReadNetloc(netloc: string): (Option<string>, Option<string>, Option<string>) {
    var (userinfo, haveInfo, hostinfo) := RPartition(netloc, '@');
    var (host, _, _) := Partition(hostinfo, ':');
    var hostname := if host == "" then None else Some(host);
    if haveInfo then
      var (user, havePassword, password) := Partition(userinfo, ':');
      (Some(user), if havePassword then Some(password) else None, hostname)
    else (None, None, hostname)
  }

  lemma PartitionAt(pre: string, c: char, post: string)
    requires c !in pre
    ensures Partition(pre + [c] + post, c) == (pre, true, post)
  {
    var s := pre + [c] + post;
    var fi := FirstIndex(s, c);
    assert s[|pre|] == c;
    assert s[..|pre|] == pre && s[|pre| + 1..] == post;
  }

  lemma RPartitionAt(pre: string, c: char, post: string)
    requires c !in post
    ensures RPartition(pre + [c] + post, c) == (pre, true, post)
  {
    var s := pre + [c] + post;
    var li := LastIndex(s, c);
    assert s[|pre|] == c;
    assert s[..|pre|] == pre && s[|pre| + 1..] == post;
  }

  lemma ReadNetlocWithUserinfo(info: string, host: string)
    requires host != "" && '@' !in host && ':' !in host
    ensures var (user, havePassword, password) := Partition(info, ':');
      ReadNetloc(info + "@" + host) == (Some(user), if havePassword then Some(password) else None, Some(host))
  {
    RPartitionAt(info, '@', host);
    assert FirstIndex(host, ':').None?;
  }

  lemma ReadNetlocHostOnly(host: string)
    requires host != "" && '@' !in host && ':' !in host
    ensures ReadNetloc(host) == (None, None, Some(host))
  {
    assert LastIndex(host, '@').None?;
    assert FirstIndex(host, ':').None?;
  }

  /**
   * Reading the redacted netloc back gives the same hostname, the same username up to
   * truthiness, and the redaction marker as password exactly when there was a password.
   */
  lemma RedactedNetlocRoundTrip(username: Option<string>, password: Option<string>, hostname: Option<string>, redactWith: string)
    requires Truthy(hostname) && '@' !in hostname.value && ':' !in hostname.value
    requires Truthy(username) ==> ':' !in username.value
    ensures var (u, p, h) := ReadNetloc(RedactedNetloc(username, password, hostname, redactWith));
      && h == hostname
      && (Truthy(u) <==> Truthy(username))
      && (Truthy(username) ==> u == username)
      && p == if Truthy(password) then Some(redactWith) else None
  {
    var user := if Truthy(username) then username.value else "";
    var host := hostname.value;
    if Truthy(password) {
      var info := user + [':'] + redactWith;
      assert RedactedNetloc(username, password, hostname, redactWith) == info + "@" + host;
      ReadNetlocWithUserinfo(info, host);
      PartitionAt(user, ':', redactWith);
    } else if Truthy(username) {
      assert RedactedNetloc(username, password, hostname, redactWith) == user + "@" + host;
      ReadNetlocWithUserinfo(user, host);
      assert FirstIndex(user, ':').None?;
    } else {
      assert RedactedNetloc(username, password, hostname, redactWith) == host;
      ReadNetlocHostOnly(host);
    }
  }

  /** Schemes served through the file-system layer. */
  const PYFS_SCHEMES: seq<string> := ["file"]

  /** `make_fs`: only the "file" scheme has a factory; the opened directory is represented by its path. */
  function MakeFs(scheme: string, path: string): (r: Result<string>)
    ensures r.Success? <==> scheme == "file"
    ensures r.Success? ==> r.value == path
    ensures r.Failure? ==> r.error == ValueError(InvalidScheme)
  {
    if scheme != "file" then Failure(ValueError(InvalidScheme)) else Success(path)
  }

  /** The sample name of a read group: its SM tag, else the file's base name without the `.bam` suffix. */
  function SampleName(readGroup: map<string, string>, path: string): string {
    if "SM" in readGroup then readGroup["SM"] else Basename(DropSuffix(path, |".bam"|))
  }

  lemma {:induction false} BasenameAfterSlash(dir: string, name: string)
    requires '/' !in name
    ensures Basename(dir + "/" + name) == name
    decreases |name|
  {
    var path := dir + "/" + name;
    if name != [] {
      var init := name[..|name| - 1];
      assert path[..|path| - 1] == dir + "/" + init;
      BasenameAfterSlash(dir, init);
      assert name == init + [name[|name| - 1]];
    }
  }

  /** Without an SM tag, `dir/NAME.bam` yields the sample name NAME. */
  lemma SampleNameFromFileName(readGroup: map<string, string>, dir: string, name: string)
    requires "SM" !in readGroup
    requires '/' !in name
    ensures SampleName(readGroup, dir + "/" + name + ".bam") == name
  {
    var path := dir + "/" + name + ".bam";
    var stem := DropSuffix(path, 4);
    assert stem == dir + "/" + name;
    BasenameAfterSlash(dir, name);
  }

  /**
   * `load_data` on a URL already split into scheme and path: the alignment header is given as
   * its list of read groups, the path hash and the sample-name clean-up as functions.
   */
  function LoadData(scheme: string, path: string, readGroups: seq<map<string, string>>,
                    hash: string -> string, stripSample: string -> string): (r: Result<MetaData>)
    ensures r.Success? <==> scheme == "file" && |readGroups| == 1
    ensures scheme != "file" ==> r == Failure(ExcovisError(NotFileScheme))
    ensures scheme == "file" && |readGroups| != 1 ==> r == Failure(ExcovisError(ReadGroupCount))
    ensures r.Success? ==> r.value.id == hash(path) && r.value.path == path
    ensures r.Success? ==> r.value.sample == stripSample(SampleName(readGroups[0], path))
  {
    if scheme != "file" then Failure(ExcovisError(NotFileScheme))
    else if |readGroups| != 1 then Failure(ExcovisError(ReadGroupCount))
    else
      var sample := SampleName(readGroups[0], path);
      Success(MetaData(id := hash(path), path := path, sample := stripSample(sample)))
  }
}
