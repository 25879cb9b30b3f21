/** Server configuration (`src/config.rs`): listen address, the paths derived
    from the root directory, TLS switch, defaults, and the optional account. */
module Config {
  import opened Base

  datatype ConfigAddr = ConfigAddr(host: string, port: nat)
  datatype ConfigPaths = ConfigPaths(rootDir: string)
  datatype ConfigCert = ConfigCert(sslEnable: bool, certFile: string, keyFile: string)
  datatype Account = Account(username: Option<string>, password: Option<string>)
  datatype Config = Config(listen: ConfigAddr, paths: ConfigPaths, encryption: Option<ConfigCert>,
                           account: Option<Account>)

  const U16_LIMIT := 0x1_0000
  const DEFAULT_HOST := "0.0.0.0"
  const DEFAULT_PORT := 27701
  const DEFAULT_ROOT := "."

  ghost predicate Wellformed(c: Config) { c.listen.port < U16_LIMIT }

  /** The `Default` impls: `0.0.0.0:27701`, root `.`, a default (disabled)
      certificate section, no account. */
  function Default(): (c: Config)
    ensures Wellformed(c)
    ensures c.listen == ConfigAddr(DEFAULT_HOST, DEFAULT_PORT) && c.paths.rootDir == DEFAULT_ROOT
    ensures c.encryption == Some(ConfigCert(false, "", "")) && c.account.None?
  {
    Config(ConfigAddr(DEFAULT_HOST, DEFAULT_PORT), ConfigPaths(DEFAULT_ROOT),
           Some(ConfigCert(false, "", "")), None)
  }

  /** `encryption_enabled`: false without an encryption section, else its `ssl_enable`. */
  function EncryptionEnabled(c: Config): (enabled: bool)
    ensures enabled <==> c.encryption.Some? && c.encryption.value.sslEnable
  {
    match c.encryption
    case Some(e) => e.sslEnable
    case None => false
  }

  /** `listen_on`: `host:port`. */
  function ListenOn(c: Config): (addr: string)
    ensures |addr| > |c.listen.host| && addr[..|c.listen.host|] == c.listen.host
    ensures addr[|c.listen.host|] == ':' && addr[|c.listen.host| + 1..] == Decimal(c.listen.port)
  {
    c.listen.host + ":" + Decimal(c.listen.port)
  }

  /** `data_root_path`: `<root_dir>/collections/`. */
  function DataRootPath(c: Config): (p: string)
    ensures |p| > |c.paths.rootDir| && p[..|c.paths.rootDir|] == c.paths.rootDir && p[|c.paths.rootDir|..] == "/collections/"
  {
    c.paths.rootDir + "/collections/"
  }

  /** `auth_db_path`: `<root_dir>/auth.db`. */
  function AuthDbPath(c: Config): (p: string)
    ensures |p| > |c.paths.rootDir| && p[..|c.paths.rootDir|] == c.paths.rootDir && p[|c.paths.rootDir|..] == "/auth.db"
  {
    c.paths.rootDir + "/auth.db"
  }

  /** `session_db_path`: `<root_dir>/session.db`. */
  function SessionDbPath(c: Config): (p: string)
    ensures |p| > |c.paths.rootDir| && p[..|c.paths.rootDir|] == c.paths.rootDir && p[|c.paths.rootDir|..] == "/session.db"
  {
    c.paths.rootDir + "/session.db"
  }

  /** `Account::username` and `Account::password`: an empty value counts as absent. */
  function NonEmpty(value: Option<string>): (r: Option<string>)
    ensures r.None? <==> value.None? || value.value == ""
    ensures r.Some? ==> r == value
  {
    match value
    case Some(v) => if v == "" then None else Some(v)
    case None => None
  }

  function AccountUsername(a: Account): (r: Option<string>)
    ensures r.None? <==> a.username.None? || a.username.value == ""
    ensures r.Some? ==> r == a.username
  {
    NonEmpty(a.username)
  }

  function AccountPassword(a: Account): (r: Option<string>)
    ensures r.None? <==> a.password.None? || a.password.value == ""
    ensures r.Some? ==> r == a.password
  {
    NonEmpty(a.password)
  }

  /** The text after the last `:` of the listen address is the decimal port and
      reads back as the port; the text before it is the host (which may itself
      contain `:`). */
  lemma {:induction false} ListenOnSplits(c: Config)
    ensures var addr := ListenOn(c);
            var k := |c.listen.host|;
            (forall i :: k < i < |addr| ==> addr[i] != ':')
            && ParseDecimal(addr[k + 1..]) == c.listen.port
  {
    var addr := ListenOn(c);
    var k := |c.listen.host|;
    var digits := Decimal(c.listen.port);
    forall i | k < i < |addr| ensures addr[i] != ':' {
      assert addr[i] == digits[i - k - 1];
      assert IsDigit(digits[i - k - 1]);
    }
    DecimalRoundTrip(c.listen.port);
  }

  /** The three derived paths of one configuration are different files, and each
      determines the root directory it came from. */
  lemma {:induction false} PathsDistinct(c: Config, d: Config)
    ensures DataRootPath(c) != AuthDbPath(c) && DataRootPath(c) != SessionDbPath(c)
    ensures AuthDbPath(c) != SessionDbPath(c)
    ensures DataRootPath(c) == DataRootPath(d) ==> c.paths == d.paths
    ensures AuthDbPath(c) == AuthDbPath(d) ==> c.paths == d.paths
    ensures SessionDbPath(c) == SessionDbPath(d) ==> c.paths == d.paths
  {
    var r := c.paths.rootDir;
    var k := |r|;
    assert DataRootPath(c)[k + 1] == 'c' && AuthDbPath(c)[k + 1] == 'a' && SessionDbPath(c)[k + 1] == 's';
    if DataRootPath(c) == DataRootPath(d) {
      assert |DataRootPath(c)| == |DataRootPath(d)|;
      assert r == DataRootPath(c)[..k] == DataRootPath(d)[..k];
    }
    if AuthDbPath(c) == AuthDbPath(d) {
      assert |AuthDbPath(c)| == |AuthDbPath(d)|;
      assert r == AuthDbPath(c)[..k] == AuthDbPath(d)[..k];
    }
    if SessionDbPath(c) == SessionDbPath(d) {
      assert |SessionDbPath(c)| == |SessionDbPath(d)|;
      assert r == SessionDbPath(c)[..k] == SessionDbPath(d)[..k];
    }
  }

  /** The default configuration listens on `0.0.0.0:27701` without encryption. */
  lemma DefaultListensUnencrypted()
    ensures ListenOn(Default()) == "0.0.0.0:27701"
    ensures !EncryptionEnabled(Default())
    ensures DataRootPath(Default()) == "./collections/"
  {
    assert Decimal(27701) == "27701" by {
      assert Decimal(2) == "2";
      assert Decimal(27) == "27";
      assert Decimal(277) == "277";
      assert Decimal(2770) == "2770";
    }
  }
}
