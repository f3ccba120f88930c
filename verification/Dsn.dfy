/** Data source names: how they are printed, and what the handlers read off them. */
module Dsn {
  import opened Base
  import opened Text

  datatype Fault = NoUserinfo | EmptyUserinfo | EmptyKey

  predicate SeparatorAt(s: string, i: nat) {
    i + 3 <= |s| && s[i] == ':' && s[i + 1] == '/' && s[i + 2] == '/'
  }

  /** Index of the first `://` from `i` on. */
  function FindSeparator(s: string, i: nat): (k: Option<nat>)
    ensures k.Some? ==> i <= k.value && SeparatorAt(s, k.value) && forall j | i <= j < k.value :: !SeparatorAt(s, j)
    ensures k == None ==> forall j | i <= j :: !SeparatorAt(s, j)
    decreases |s| - i
  {
    if i + 3 > |s| then None else if SeparatorAt(s, i) then Some(i) else FindSeparator(s, i + 1)
  }

  /** What follows the protocol, or everything if none is given. */
  function AfterProtocol(dsn: string): string {
    match FindSeparator(dsn, 0)
    case Some(k) => dsn[k + 3..]
    case None => dsn
  }

  /** The public key in front of the host. */
  function KeyIn(rest: string): (r: Result<string, Fault>)
    ensures r.Ok? ==> r.value != "" && r.value <= rest && '@' !in r.value && ':' !in r.value
  {
    var at := Find(rest, '@');
    if at == |rest| then Err(NoUserinfo)
    else if at == 0 then Err(EmptyUserinfo)
    else
      var userinfo := rest[..at];
      var colon := Find(userinfo, ':');
      if colon == 0 then Err(EmptyKey) else Ok(userinfo[..colon])
  }

  function PublicKey(dsn: string): Result<string, Fault> {
    KeyIn(AfterProtocol(dsn))
  }

  /** What follows the last slash behind the userinfo. */
  function ProjectIn(rest: string): (p: string)
    ensures '/' !in p
  {
    var at := Find(rest, '@');
    SegmentIn(if at < |rest| then rest[at + 1..] else rest)
  }

  function SegmentIn(address: string): (p: string)
    ensures '/' !in p
  {
    var slash := FindLast(address, '/');
    if slash > 0 then address[slash..] else ""
  }

  function Project(dsn: string): string {
    ProjectIn(AfterProtocol(dsn))
  }

  // ---------------------------------------------------------------- printing

  function SecretPart(secret: Option<string>): string {
    if secret.Some? then ":" + secret.value else ""
  }

  /** The formula of a DSN behind its protocol. */
  function Address(key: string, secret: Option<string>, host: string, project: string): string {
    key + SecretPart(secret) + ['@'] + (host + ['/'] + project)
  }

  function Formula(protocol: string, key: string, secret: Option<string>, host: string, project: string): string {
    protocol + "://" + Address(key, secret, host, project)
  }

  /** What the registration tool prints. */
  function Registered(key: string, host: string, project: string): string {
    "https://" + key + "@" + host + "/" + project
  }

  lemma ProtocolStripped(protocol: string, rest: string)
    requires ':' !in protocol
    ensures AfterProtocol(protocol + "://" + rest) == rest
  {
    var s := protocol + "://" + rest;
    assert s[|protocol|] == ':' && s[|protocol| + 1] == '/' && s[|protocol| + 2] == '/';
    assert SeparatorAt(s, |protocol|);
    assert forall i | 0 <= i < |protocol| :: s[i] == protocol[i];
    assert FindSeparator(s, 0) == Some(|protocol|);
  }

  /** Without a protocol, a DSN is read from its beginning. */
  lemma NoProtocol(dsn: string)
    requires forall i | 0 <= i :: !SeparatorAt(dsn, i)
    ensures AfterProtocol(dsn) == dsn
  {}

  /** The key ends where the first `@` or `:` is. */
  lemma KeyEnds(rest: string, n: nat)
    requires 0 < n < |rest| && (rest[n] == ':' || rest[n] == '@') && '@' in rest
    requires '@' !in rest[..n] && ':' !in rest[..n]
    ensures KeyIn(rest) == Ok(rest[..n])
  {
    var at := Find(rest, '@');
    assert forall i | 0 <= i < n :: rest[i] == rest[..n][i];
    assert n <= at < |rest|;
    var userinfo := rest[..at];
    assert forall i | 0 <= i < n :: userinfo[i] == rest[i];
    assert Find(userinfo, ':') == n;
    assert userinfo[..n] == rest[..n];
  }

  lemma KeyReadsBack(key: string, secret: Option<string>, host: string, project: string)
    ensures KeyIn(Address(key, secret, host, project)) == Ok(key) <==> key != "" && '@' !in key && ':' !in key
  {
    var rest := Address(key, secret, host, project);
    if key != "" && '@' !in key && ':' !in key {
      assert rest[|key|] == if secret.Some? then ':' else '@';
      assert rest[..|key|] == key;
      assert rest[|key + SecretPart(secret)|] == '@';
      KeyEnds(rest, |key|);
    }
  }

  /** `rest` is the key, maybe a secret, and then something behind `@`. */
  ghost predicate KeyInFront(rest: string, key: string, secret: Option<string>, behind: string) {
    rest == key + SecretPart(secret) + ['@'] + behind
  }

  /** A key is read exactly off what has the form of the formula, and otherwise there is none. */
  lemma KeyIff(rest: string, key: string)
    ensures KeyIn(rest) == Ok(key) <==>
            key != "" && '@' !in key && ':' !in key && exists secret, behind :: KeyInFront(rest, key, secret, behind)
  {
    if KeyIn(rest) == Ok(key) {
      KeyFound(rest, key);
    }
    if key != "" && '@' !in key && ':' !in key {
      if secret, behind :| KeyInFront(rest, key, secret, behind) {
        assert rest[|key|] == if secret.Some? then ':' else '@';
        assert rest[..|key|] == key;
        assert rest[|key + SecretPart(secret)|] == '@';
        KeyEnds(rest, |key|);
      }
    }
  }

  lemma KeyFound(rest: string, key: string)
    requires KeyIn(rest) == Ok(key)
    ensures exists secret, behind :: KeyInFront(rest, key, secret, behind)
  {
    var at := Find(rest, '@');
    var userinfo, behind := rest[..at], rest[at + 1..];
    assert rest == userinfo + ['@'] + behind;
    if key == userinfo {
      assert key + "" == key;
      assert KeyInFront(rest, key, None, behind);
    } else {
      var secret := userinfo[|key| + 1..];
      assert userinfo[|key|] == ':';
      assert userinfo == key + (":" + secret);
      assert KeyInFront(rest, key, Some(secret), behind);
    }
  }

  /** What is behind the first `@`, or everything without one. */
  ghost predicate IsAddress(rest: string, address: string) {
    if '@' in rest then exists info :: '@' !in info && rest == info + ['@'] + address else address == rest
  }

  ghost predicate EndsWithProject(address: string, front: string, project: string) {
    '/' !in project && address == front + ['/'] + project
  }

  /** The project is what follows the last slash of the address; without a slash it is empty. */
  lemma ProjectIff(rest: string, address: string)
    requires IsAddress(rest, address)
    ensures '/' !in address ==> ProjectIn(rest) == ""
    ensures '/' in address ==> exists front :: EndsWithProject(address, front, ProjectIn(rest))
  {
    if '@' in rest {
      var info :| '@' !in info && rest == info + ['@'] + address;
      FindIs(info, '@', address);
      assert rest[|info| + 1..] == address;
      assert Find(rest, '@') == |info| < |rest|;
    } else {
      assert Find(rest, '@') == |rest|;
    }
    assert ProjectIn(rest) == SegmentIn(address);
    SegmentEnds(address);
  }

  lemma SegmentEnds(address: string)
    ensures '/' !in address ==> SegmentIn(address) == ""
    ensures '/' in address ==> exists front :: EndsWithProject(address, front, SegmentIn(address))
  {
    var slash := FindLast(address, '/');
    if slash > 0 {
      assert address == address[..slash - 1] + ['/'] + address[slash..];
      assert EndsWithProject(address, address[..slash - 1], SegmentIn(address));
    }
  }

  lemma LastSegment(front: string, project: string)
    requires '/' !in project
    ensures SegmentIn(front + ['/'] + project) == project
  {
    FindLastIs(front, '/', project);
  }

  lemma ProjectReadsBack(info: string, host: string, project: string)
    ensures ProjectIn(info + ['@'] + (host + ['/'] + project)) == project <==> '/' !in project
  {
    if '/' !in project {
      var rest := info + ['@'] + (host + ['/'] + project);
      assert rest[|info|] == '@';
      var at := Find(rest, '@');
      var front := (info + ['@'] + host)[at + 1..];
      assert rest[at + 1..] == front + ['/'] + project;
      LastSegment(front, project);
    }
  }

  /**
   What is read off a DSN is what it was made of, whatever the secret, the host and its
   path are: the key exactly when it can be told from what follows, the project exactly
   when it is a single path segment.
   */
  lemma FormulaReadsBack(protocol: string, key: string, secret: Option<string>, host: string, project: string)
    requires ':' !in protocol
    ensures var dsn := Formula(protocol, key, secret, host, project);
            && (PublicKey(dsn) == Ok(key) <==> key != "" && '@' !in key && ':' !in key)
            && (Project(dsn) == project <==> '/' !in project)
  {
    ProtocolStripped(protocol, Address(key, secret, host, project));
    KeyReadsBack(key, secret, host, project);
    ProjectReadsBack(key + SecretPart(secret), host, project);
  }

  /** The printed DSN of a hexadecimal key reads back as that key and project. */
  lemma RegisteredReadsBack(key: string, host: string, project: string)
    requires key != "" && (forall c | c in key :: '0' <= c <= '9' || 'a' <= c <= 'f') && '/' !in project
    ensures PublicKey(Registered(key, host, project)) == Ok(key)
    ensures Project(Registered(key, host, project)) == project
  {
    assert Registered(key, host, project) == Formula("https", key, None, host, project) by {
      assert key + "" == key;
    }
    FormulaReadsBack("https", key, None, host, project);
  }
}
