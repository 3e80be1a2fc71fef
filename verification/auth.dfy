/**
 * Where the API key comes from. Three sources, each overriding the one
 * before: the password stored in the netrc file for the API host, the
 * `api_key` already in the configuration, and the `--token` flag. Two
 * copies exist: the command-line package's `AttemptLogin`, which works on
 * a `*Config` and returns an error, and the `auth` package's, which works
 * on the package-level settings and exits the process instead.
 *
 * Reading and parsing the netrc file and `url.Parse` are not modelled:
 * the parsed netrc (absent when the loader returned nil) and the parser
 * are inputs.
 */
module Auth {
  import opened Errors
  import Config

  /** A netrc `machine` entry's credentials. */
  datatype Machine = Machine(login: string, password: string)

  /** A parsed netrc file, as far as `FindMachine` answers for a host. */
  datatype Netrc = Netrc(findMachine: string -> Option<Machine>)

  /** The user-info part of a URL (`user:password@`); the password may be absent. */
  datatype UserInfo = UserInfo(username: string, password: Option<string>)

  datatype Url = Url(host: string, user: Option<UserInfo>)

  /** What `url.Parse` makes of a string: an error text or a URL. */
  datatype Parsed = ParseError(reason: string) | Parsed(url: Url)

  /** `getCreds` ends with a user and password, or stops the process with a message. */
  datatype Creds = Creds(user: string, pass: string) | Fatal(message: string)

  /** `getCreds`. */
  function GetCreds(netrc: Option<Netrc>, endpoint: string, parse: string -> Parsed): (r: Creds)
    ensures r.Fatal? <==> netrc.Some? && (parse(endpoint).ParseError? || parse(endpoint).url.host == "")
    ensures r.Fatal? && parse(endpoint).ParseError? ==> r.message == "invalid API URL: " + parse(endpoint).reason
    ensures r.Fatal? && parse(endpoint).Parsed? ==> r.message == "missing API host: " + endpoint
    ensures netrc.None? ==> r == Creds("", "")
    ensures r.Creds? && netrc.Some? && parse(endpoint).url.user.Some? ==>
      var u := parse(endpoint).url.user.value;
      r.user == u.username && r.pass == (if u.password.Some? then u.password.value else "")
    ensures r.Creds? && netrc.Some? && parse(endpoint).url.user.None? ==>
      var m := netrc.value.findMachine(parse(endpoint).url.host);
      r == (if m.Some? then Creds(m.value.login, m.value.password) else Creds("", ""))
  {
    match netrc
    case None => Creds("", "")
    case Some(nrc) =>
      match parse(endpoint)
      case ParseError(reason) => Fatal("invalid API URL: " + reason)
      case Parsed(u) =>
        if u.host == "" then Fatal("missing API host: " + endpoint)
        else if u.user.Some? then
          Creds(u.user.value.username, if u.user.value.password.Some? then u.user.value.password.value else "")
        else
          match nrc.findMachine(u.host)
          case None => Creds("", "")
          case Some(m) => Creds(m.login, m.password)
  }

  /** Credentials written into the endpoint URL win over whatever the netrc file holds. */
  lemma UserInfoBeatsNetrc(n1: Netrc, n2: Netrc, endpoint: string, parse: string -> Parsed)
    requires parse(endpoint).Parsed? && parse(endpoint).url.user.Some?
    ensures GetCreds(Some(n1), endpoint, parse) == GetCreds(Some(n2), endpoint, parse)
  {
  }

  /** A host without a netrc entry, and no user info in the URL, gives no credentials. */
  lemma NoMachineNoCreds(n: Netrc, endpoint: string, parse: string -> Parsed)
    requires parse(endpoint).Parsed? && parse(endpoint).url.host != "" && parse(endpoint).url.user.None?
    requires n.findMachine(parse(endpoint).url.host).None?
    ensures GetCreds(Some(n), endpoint, parse) == Creds("", "")
  {
  }

  /** How a login attempt ends: with a key, with an error returned, or with the process exiting (status 1) after printing a message. */
  datatype LoginOutcome = LoggedIn | Refused(error: Error) | Exit(message: string)

  /** The key after the attempt, and how it ended. */
  datatype Login = Login(key: string, outcome: LoginOutcome)

  /**
   * Both copies of `AttemptLogin`: keep a non-empty key, else take the
   * netrc password; then a non-empty token replaces it; an empty result is
   * refused (`exitOnEmpty` tells which copy: the `auth` package exits).
   */
  function LoginSpec(key: string, token: string, netrc: Option<Netrc>, endpoint: string,
                     parse: string -> Parsed, exitOnEmpty: bool): Login
  {
    var creds := if key == "" then GetCreds(netrc, endpoint, parse) else Creds("", key);
    if creds.Fatal? then Login(key, Exit(creds.message))
    else
      var fromNetrc := creds.pass;
      var k := if token != "" then token else fromNetrc;
      if k != "" then Login(k, LoggedIn)
      else if exitOnEmpty then Login(k, Exit(Message(EmptyToken)))
      else Login(k, Refused(EmptyToken))
  }

  /** A key already in the configuration is used as is: the netrc file and the URL parser are never consulted. */
  lemma ConfiguredKeySkipsNetrc(key: string, token: string, n1: Option<Netrc>, n2: Option<Netrc>,
                                endpoint: string, p1: string -> Parsed, p2: string -> Parsed, exitOnEmpty: bool)
    requires key != ""
    ensures LoginSpec(key, token, n1, endpoint, p1, exitOnEmpty) == LoginSpec(key, token, n2, endpoint, p2, exitOnEmpty)
    ensures token == "" ==> LoginSpec(key, token, n1, endpoint, p1, exitOnEmpty) == Login(key, LoggedIn)
  {
  }

  /** Without a configured key, the netrc password becomes the key when no token is given. */
  lemma EmptyKeyTakesNetrcPassword(token: string, netrc: Option<Netrc>, endpoint: string, parse: string -> Parsed, exitOnEmpty: bool)
    requires token == ""
    requires GetCreds(netrc, endpoint, parse).Creds?
    ensures LoginSpec("", token, netrc, endpoint, parse, exitOnEmpty).key == GetCreds(netrc, endpoint, parse).pass
  {
  }

  /** A non-empty token is the key in the end, whatever the configuration held. */
  lemma TokenOverrides(key: string, token: string, netrc: Option<Netrc>, endpoint: string, parse: string -> Parsed, exitOnEmpty: bool)
    requires token != ""
    requires key != "" || GetCreds(netrc, endpoint, parse).Creds?
    ensures LoginSpec(key, token, netrc, endpoint, parse, exitOnEmpty) == Login(token, LoggedIn)
  {
  }

  /**
   * The attempt is refused exactly when all three sources are empty; the
   * command-line copy returns the error, the `auth` copy exits with its text.
   */
  lemma EmptyKeyRefused(key: string, token: string, netrc: Option<Netrc>, endpoint: string, parse: string -> Parsed)
    requires key != "" || GetCreds(netrc, endpoint, parse).Creds?
    ensures var r := LoginSpec(key, token, netrc, endpoint, parse, false);
      r.outcome.Refused? <==> key == "" && token == "" && GetCreds(netrc, endpoint, parse).pass == ""
    ensures var r := LoginSpec(key, token, netrc, endpoint, parse, false);
      r.outcome.Refused? ==> r.outcome.error == EmptyToken
    ensures var r := LoginSpec(key, token, netrc, endpoint, parse, true);
      r.outcome.Exit? <==> key == "" && token == "" && GetCreds(netrc, endpoint, parse).pass == ""
    ensures var r := LoginSpec(key, token, netrc, endpoint, parse, true);
      r.outcome.Exit? ==> r.outcome.message == Message(EmptyToken)
    ensures LoginSpec(key, token, netrc, endpoint, parse, false).outcome.LoggedIn? <==> LoginSpec(key, token, netrc, endpoint, parse, false).key != ""
  {
  }

  /** The two copies agree on the key and differ only in how they refuse. */
  lemma CopiesAgree(key: string, token: string, netrc: Option<Netrc>, endpoint: string, parse: string -> Parsed)
    ensures LoginSpec(key, token, netrc, endpoint, parse, false).key == LoginSpec(key, token, netrc, endpoint, parse, true).key
    ensures LoginSpec(key, token, netrc, endpoint, parse, false).outcome.LoggedIn?
        <==> LoginSpec(key, token, netrc, endpoint, parse, true).outcome.LoggedIn?
  {
  }

  /** The command-line package's `*Config`, the fields a login reads and writes. */
  class ClientConfig {
    var apiEndpoint: string
    var apiKey: string

    constructor (apiEndpoint: string, apiKey: string)
      ensures this.apiEndpoint == apiEndpoint && this.apiKey == apiKey
    {
      this.apiEndpoint := apiEndpoint;
      this.apiKey := apiKey;
    }
  }

  /** The command-line package's `AttemptLogin`: it updates the given configuration and returns `ErrEmptyToken` when no key was found. */
  method AttemptLoginWithConfig(config: ClientConfig, token: string, netrc: Option<Netrc>, parse: string -> Parsed)
    returns (outcome: LoginOutcome)
    modifies config
    ensures config.apiEndpoint == old(config.apiEndpoint)
    ensures Login(config.apiKey, outcome) == LoginSpec(old(config.apiKey), token, netrc, config.apiEndpoint, parse, false)
  {
    if config.apiKey == "" {
      var creds := GetCreds(netrc, config.apiEndpoint, parse);
      if creds.Fatal? {
        return Exit(creds.message);
      }
      config.apiKey := creds.pass;
    }
    if token != "" {
      config.apiKey := token;
    }
    if config.apiKey == "" {
      return Refused(EmptyToken);
    }
    return LoggedIn;
  }

  /** The `auth` package's `AttemptLogin`: it updates the package-level key and exits when no key was found. */
  method AttemptLogin(settings: Config.Settings, token: string, netrc: Option<Netrc>, parse: string -> Parsed)
    returns (outcome: LoginOutcome)
    modifies settings
    ensures settings.Current() == old(settings.Current()).(apiKey := settings.apiKey)
    ensures Login(settings.apiKey, outcome) == LoginSpec(old(settings.apiKey), token, netrc, settings.apiEndpoint, parse, true)
  {
    if settings.apiKey == "" {
      var creds := GetCreds(netrc, settings.apiEndpoint, parse);
      if creds.Fatal? {
        return Exit(creds.message);
      }
      settings.apiKey := creds.pass;
    }
    if token != "" {
      settings.apiKey := token;
    }
    if settings.apiKey == "" {
      return Exit(Message(EmptyToken));
    }
    return LoggedIn;
  }
}
