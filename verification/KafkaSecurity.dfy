/** Kafka client security from the environment: JAAS credentials are escaped and can be read back. */
module KafkaSecurity {
  import opened Sequences

  const BACKSLASH: char := '\\'
  const QUOTE: char := '"'
  const PLAIN_LOGIN_MODULE: string := "org.apache.kafka.common.security.plain.PlainLoginModule"
  const SCRAM_LOGIN_MODULE: string := "org.apache.kafka.common.security.scram.ScramLoginModule"

  /** `s.replace(c, sub)` for a one-character pattern. */
  function Replace(s: string, c: char, sub: string): string {
    if s == "" then "" else (if s[0] == c then sub else [s[0]]) + Replace(s[1..], c, sub)
  }

  /** Backslash first, then the quote. */
  function EscapeJaas(value: string): string {
    Replace(Replace(value, BACKSLASH, [BACKSLASH, BACKSLASH]), QUOTE, [BACKSLASH, QUOTE])
  }

  /** One pass, character by character. */
  function Escaped(value: string): string {
    if value == "" then ""
    else (if value[0] == '\\' || value[0] == '"' then ['\\', value[0]] else [value[0]]) + Escaped(value[1..])
  }

  lemma {:induction false} ReplaceConcat(a: string, b: string, c: char, sub: string)
    ensures Replace(a + b, c, sub) == Replace(a, c, sub) + Replace(b, c, sub)
  {
    if a == "" {
      assert a + b == b;
    } else {
      assert (a + b)[1..] == a[1..] + b;
      ReplaceConcat(a[1..], b, c, sub);
    }
  }

  lemma ReplaceShort(c: char, sub: string, x: char, y: char)
    ensures Replace([x], c, sub) == if x == c then sub else [x]
    ensures x != c && y != c ==> Replace([x, y], c, sub) == [x, y]
  {
    assert [x][1..] == "" && [x, y][1..] == [y] && [y][1..] == "";
  }

  /** The two passes escape each character once. */
  lemma {:induction false} TwoPassesAreOne(value: string)
    ensures EscapeJaas(value) == Escaped(value)
  {
    if value != "" {
      var x, doubled := value[0], [BACKSLASH, BACKSLASH];
      TwoPassesAreOne(value[1..]);
      var first := if x == BACKSLASH then doubled else [x];
      ReplaceConcat(first, Replace(value[1..], BACKSLASH, doubled), QUOTE, [BACKSLASH, QUOTE]);
      ReplaceShort(QUOTE, [BACKSLASH, QUOTE], x, x);
    }
  }

  // ---------------------------------------------------------------- a reader of quoted strings

  /** What a backslash and a character stand for, and the characters that end a string too early. */
  datatype Reader = Reader(unescape: char -> char, breaks: char -> bool)

  /** A backslash or a quote behind a backslash stands for itself. */
  predicate ReadsEscapes(r: Reader) {
    && r.unescape(BACKSLASH) == BACKSLASH && r.unescape(QUOTE) == QUOTE
    && !r.breaks(BACKSLASH) && !r.breaks(QUOTE)
  }

  datatype Quoted = Quoted(value: string, rest: string)

  /** Reads up to the closing quote. */
  function ReadQuoted(s: string, r: Reader): Option<Quoted>
    decreases |s|
  {
    if s == "" || r.breaks(s[0]) then None
    else if s[0] == QUOTE then Some(Quoted("", s[1..]))
    else if s[0] != BACKSLASH then Prepend(s[0], ReadQuoted(s[1..], r))
    else if |s| == 1 then None
    else Prepend(r.unescape(s[1]), ReadQuoted(s[2..], r))
  }

  function Prepend(c: char, q: Option<Quoted>): Option<Quoted> {
    if q.None? then None else Some(Quoted([c] + q.value.value, q.value.rest))
  }

  predicate Unbroken(value: string, r: Reader) {
    value != "" ==> !r.breaks(value[0]) && Unbroken(value[1..], r)
  }

  /** An escaped value reads back exactly, whatever follows, unless it holds a breaking character. */
  lemma {:induction false} EscapedReadsBack(value: string, rest: string, r: Reader)
    requires ReadsEscapes(r)
    ensures ReadQuoted(Escaped(value) + [QUOTE] + rest, r) == if Unbroken(value, r) then Some(Quoted(value, rest)) else None
  {
    var s := Escaped(value) + [QUOTE] + rest;
    if value == "" {
      assert s == [QUOTE] + rest;
    } else {
      var tail := Escaped(value[1..]) + [QUOTE] + rest;
      EscapedReadsBack(value[1..], rest, r);
      if value[0] in [BACKSLASH, QUOTE] {
        assert s == [BACKSLASH, value[0]] + tail;
      } else {
        assert s == [value[0]] + tail;
      }
      assert [value[0]] + value[1..] == value;
    }
  }

  // ---------------------------------------------------------------- the login configuration

  predicate StartsWith(s: string, prefix: string) {
    |prefix| <= |s| && s[..|prefix|] == prefix
  }

  predicate OccursAt(s: string, part: string, i: int) {
    0 <= i <= |s| - |part| && s[i..i + |part|] == part
  }

  predicate Contains(s: string, part: string) {
    exists i :: 0 <= i <= |s| && OccursAt(s, part, i)
  }

  /** What follows a prefix. */
  function After(s: string, prefix: string): Option<string> {
    if StartsWith(s, prefix) then Some(s[|prefix|..]) else None
  }

  lemma {:induction false} AfterPrefix(prefix: string, rest: string)
    ensures After(prefix + rest, prefix) == Some(rest)
  {
    assert (prefix + rest)[..|prefix|] == prefix && (prefix + rest)[|prefix|..] == rest;
  }

  /** Unicode-aware `str.strip` and `str.upper`. */
  datatype Text = Text(strip: string -> string, upper: string -> string)

  function LoginModule(mechanism: string, text: Text): string {
    if StartsWith(text.upper(mechanism), "SCRAM") then SCRAM_LOGIN_MODULE else PLAIN_LOGIN_MODULE
  }

  const BEFORE_USERNAME: string := " required username=\""
  const BEFORE_PASSWORD: string := " password=\""

  /** A label, an escaped value, its closing quote and what follows. */
  function Field(lead: string, value: string, rest: string): string {
    lead + (EscapeJaas(value) + [QUOTE] + rest)
  }

  function JaasConfig(login: string, username: string, password: string): string {
    Field(login + BEFORE_USERNAME, username, Field(BEFORE_PASSWORD, password, ";"))
  }

  /** The configuration's text, with the credentials escaped. */
  function LoginText(login: string, username: string, password: string): string {
    login + " required username=\"" + Escaped(username) + "\" password=\"" + Escaped(password) + "\";"
  }

  lemma ConfigIs(login: string, username: string, password: string)
    ensures JaasConfig(login, username, password) == LoginText(login, username, password)
  {
    TwoPassesAreOne(username);
    TwoPassesAreOne(password);
    var first, second := Escaped(username) + [QUOTE], Escaped(password) + [QUOTE] + ";";
    assert "\" password=\"" == [QUOTE] + BEFORE_PASSWORD && "\";" == [QUOTE] + ";";
    assert login + BEFORE_USERNAME + (first + (BEFORE_PASSWORD + second))
        == login + BEFORE_USERNAME + Escaped(username) + ([QUOTE] + BEFORE_PASSWORD) + Escaped(password) + ([QUOTE] + ";");
  }

  datatype Login = Login(loginModule: string, username: string, password: string)

  /** Reads a field behind its label. */
  function ReadField(s: string, lead: string, r: Reader): Option<Quoted> {
    var rest := After(s, lead);
    if rest.None? then None else ReadQuoted(rest.value, r)
  }

  lemma FieldReadsBack(lead: string, value: string, rest: string, r: Reader)
    requires ReadsEscapes(r)
    ensures ReadField(Field(lead, value, rest), lead, r)
            == if Unbroken(value, r) then Some(Quoted(value, rest)) else None
  {
    AfterPrefix(lead, EscapeJaas(value) + [QUOTE] + rest);
    TwoPassesAreOne(value);
    EscapedReadsBack(value, rest, r);
  }

  /** Reads a configuration of the given login module. */
  function ReadLogin(config: string, login: string, r: Reader): Option<Login> {
    var username := ReadField(config, login + BEFORE_USERNAME, r);
    if username.None? then None
    else
      var password := ReadField(username.value.rest, BEFORE_PASSWORD, r);
      if password.None? || password.value.rest != ";" then None
      else Some(Login(login, username.value.value, password.value.value))
  }

  /** The reader recovers the exact credentials from the configuration, or fails on a break in them. */
  lemma CredentialsReadBack(login: string, username: string, password: string, r: Reader)
    requires ReadsEscapes(r)
    ensures ReadLogin(JaasConfig(login, username, password), login, r)
            == if Unbroken(username, r) && Unbroken(password, r) then Some(Login(login, username, password)) else None
  {
    FieldReadsBack(BEFORE_PASSWORD, password, ";", r);
    FieldReadsBack(login + BEFORE_USERNAME, username, Field(BEFORE_PASSWORD, password, ";"), r);
  }

  const PLAIN_READER: Reader := Reader((c: char) => c, (c: char) => false)

  lemma {:induction false} NothingBreaks(value: string)
    ensures Unbroken(value, PLAIN_READER)
  {
    if value != "" {
      NothingBreaks(value[1..]);
    }
  }

  /** A reader that breaks on nothing recovers every pair of credentials. */
  lemma AllCredentialsReadBack(login: string, username: string, password: string)
    ensures ReadLogin(JaasConfig(login, username, password), login, PLAIN_READER) == Some(Login(login, username, password))
  {
    CredentialsReadBack(login, username, password, PLAIN_READER);
    NothingBreaks(username);
    NothingBreaks(password);
  }

  /** So no two pairs of credentials share a configuration. */
  lemma ConfigIsInjective(login: string, u: string, p: string, u': string, p': string)
    requires JaasConfig(login, u, p) == JaasConfig(login, u', p')
    ensures u == u' && p == p'
  {
    AllCredentialsReadBack(login, u, p);
    AllCredentialsReadBack(login, u', p');
  }

  /** The order of the passes matters: the quote first leaves its own backslash to be doubled. */
  lemma QuoteFirstIsWrong()
    ensures var wrong := Replace(Replace([QUOTE], QUOTE, [BACKSLASH, QUOTE]), BACKSLASH, [BACKSLASH, BACKSLASH]);
            ReadQuoted(wrong + [QUOTE], PLAIN_READER) == Some(Quoted([BACKSLASH], [QUOTE]))
  {
    var once, twice := [BACKSLASH, QUOTE], [BACKSLASH, BACKSLASH, QUOTE];
    assert Replace([QUOTE], QUOTE, once) == once by {
      ReplaceShort(QUOTE, once, QUOTE, QUOTE);
    }
    assert Replace(once, BACKSLASH, [BACKSLASH, BACKSLASH]) == twice by {
      ReplaceShort(BACKSLASH, [BACKSLASH, BACKSLASH], QUOTE, QUOTE);
      assert once[1..] == [QUOTE];
    }
    assert (twice + [QUOTE])[2..] == [QUOTE, QUOTE] && [QUOTE, QUOTE][1..] == [QUOTE];
    assert ReadQuoted([QUOTE, QUOTE], PLAIN_READER) == Some(Quoted("", [QUOTE]));
    assert [BACKSLASH] + "" == [BACKSLASH];
    assert Prepend(BACKSLASH, Some(Quoted("", [QUOTE]))) == Some(Quoted([BACKSLASH], [QUOTE]));
    assert PLAIN_READER.unescape(BACKSLASH) == BACKSLASH && !PLAIN_READER.breaks(BACKSLASH);
  }

  // ---------------------------------------------------------------- the properties

  function Get(env: map<string, string>, key: string, default: string): string {
    if key in env then env[key] else default
  }

  // What the environment asks for.

  function Protocol(env: map<string, string>, text: Text): string {
    if "KAFKA_SECURITY_PROTOCOL" in env then text.strip(env["KAFKA_SECURITY_PROTOCOL"]) else text.strip("")
  }

  function Mechanism(env: map<string, string>, text: Text): string {
    var mechanism := text.strip(if "KAFKA_SASL_MECHANISM" in env then env["KAFKA_SASL_MECHANISM"] else "PLAIN");
    if mechanism == "" then "PLAIN" else mechanism
  }

  function Username(env: map<string, string>): string {
    if "KAFKA_SASL_USERNAME" in env then env["KAFKA_SASL_USERNAME"] else ""
  }

  function Password(env: map<string, string>): string {
    if "KAFKA_SASL_PASSWORD" in env then env["KAFKA_SASL_PASSWORD"] else ""
  }

  /** The login module that the mechanism asks for. */
  function Module(mechanism: string, text: Text): string {
    if "SCRAM" <= text.upper(mechanism) then "org.apache.kafka.common.security.scram.ScramLoginModule"
    else "org.apache.kafka.common.security.plain.PlainLoginModule"
  }

  predicate Plaintext(env: map<string, string>, text: Text) {
    Protocol(env, text) == "" || text.upper(Protocol(env, text)) == "PLAINTEXT"
  }

  predicate HasSasl(s: string) {
    exists i :: 0 <= i <= |s| && "SASL" <= s[i..]
  }

  lemma HasSaslIff(s: string)
    ensures HasSasl(s) <==> Contains(s, "SASL")
  {
    if i :| 0 <= i <= |s| && OccursAt(s, "SASL", i) {
      assert s[i..][..4] == s[i..i + 4];
    }
    if i :| 0 <= i <= |s| && "SASL" <= s[i..] {
      assert s[i..][..4] == s[i..i + 4];
      assert OccursAt(s, "SASL", i);
    }
  }

  predicate Sasl(env: map<string, string>, text: Text) {
    !Plaintext(env, text) && HasSasl(text.upper(Protocol(env, text)))
  }

  method KafkaSecurityProperties(env: map<string, string>, text: Text, ghost r: Reader) returns (props: map<string, string>)
    requires ReadsEscapes(r)
    ensures "security.protocol" in props <==> !Plaintext(env, text)
    ensures "security.protocol" in props ==> props["security.protocol"] == Protocol(env, text)
    ensures "sasl.mechanism" in props <==> Sasl(env, text)
    ensures "sasl.jaas.config" in props <==> Sasl(env, text)
    ensures props.Keys <= {"security.protocol", "sasl.mechanism", "sasl.jaas.config"}
    ensures Sasl(env, text) ==> props["sasl.mechanism"] == Mechanism(env, text) != ""
    ensures Sasl(env, text) ==>
              var username, password, login := Username(env), Password(env), Module(Mechanism(env, text), text);
              && props["sasl.jaas.config"] == LoginText(login, username, password)
              && ReadLogin(props["sasl.jaas.config"], login, r)
                 == if Unbroken(username, r) && Unbroken(password, r) then Some(Login(login, username, password)) else None
  {
    hide LoginText;
    hide JaasConfig;
    hide ReadLogin;
    hide Contains;
    HasSaslIff(text.upper(Protocol(env, text)));
    var protocol := text.strip(Get(env, "KAFKA_SECURITY_PROTOCOL", ""));
    if protocol == "" || text.upper(protocol) == "PLAINTEXT" {
      return map[];
    }
    props := map["security.protocol" := protocol];
    if Contains(text.upper(protocol), "SASL") {
      var mechanism := text.strip(Get(env, "KAFKA_SASL_MECHANISM", "PLAIN"));
      if mechanism == "" {
        mechanism := "PLAIN";
      }
      var username, password := Get(env, "KAFKA_SASL_USERNAME", ""), Get(env, "KAFKA_SASL_PASSWORD", "");
      var config := JaasConfig(LoginModule(mechanism, text), username, password);
      CredentialsReadBack(LoginModule(mechanism, text), username, password, r);
      ConfigIs(LoginModule(mechanism, text), username, password);
      props := props["sasl.mechanism" := mechanism];
      props := props["sasl.jaas.config" := config];
    }
  }

  /** A source or sink builder, as far as its properties go. */
  datatype Builder = Builder(properties: map<string, string>)

  function SetProperty(builder: Builder, key: string, value: string): Builder {
    Builder(builder.properties[key := value])
  }

  /** In whatever order the properties are set, the builder ends with all of them over its own. */
  method ApplySecurity(builder: Builder, props: map<string, string>) returns (secured: Builder)
    ensures secured.properties == builder.properties + props
  {
    secured := builder;
    var todo := props.Keys;
    while todo != {}
      invariant todo <= props.Keys
      invariant secured.properties == builder.properties + map k | k in props && k !in todo :: props[k]
      decreases |todo|
    {
      var key :| key in todo;
      secured := SetProperty(secured, key, props[key]);
      todo := todo - {key};
    }
  }
}
