/**
 The bearer challenge of section 3 of RFC 6750: as the server renders it (error.rs) and as the two
 clients parse it (layerhouse-ctl registry.rs, mirror/client.rs).
 */
module Challenge {
  import opened Common
  import opened Text

  // ---- Rendering ----

  function Quoted(value: string, rest: string): string { ['"'] + (value + ['"'] + rest) }

  /** An optional parameter followed by `rest`. */
  function Parameter(separator: char, name: string, value: Option<string>, rest: string): string {
    match value case Some(v) => [separator] + (name + ['='] + Quoted(v, rest)) case None => rest
  }

  function Rendered(realm: Option<string>, service: Option<string>, scope: Option<string>): string {
    "Bearer" + Parameter(' ', "realm", realm, Parameter(',', "service", service, Parameter(',', "scope", scope, "")))
  }

  method PushParameter(value: string, separator: char, name: string, parameter: Option<string>, ghost rest: string)
    returns (after: string)
    ensures after + rest == value + Parameter(separator, name, parameter, rest)
  {
    after := value;
    if parameter.Some? {
      var text := [separator] + (name + ['='] + (['"'] + (parameter.value + ['"'])));
      after := value + text;
      assert Quoted(parameter.value, rest) == ['"'] + (parameter.value + ['"']) + rest;
      assert text + rest == Parameter(separator, name, parameter, rest);
      assert after + rest == value + (text + rest);
    }
  }

  method Render(realm: Option<string>, service: Option<string>, scope: Option<string>) returns (value: string)
    ensures value == Rendered(realm, service, scope)
  {
    value := "Bearer";
    value := PushParameter(value, ' ', "realm", realm, Tail(service, scope));
    value := PushParameter(value, ',', "service", service, Parameter(',', "scope", scope, ""));
    value := PushParameter(value, ',', "scope", scope, "");
    assert value + "" == value;
  }

  /** An opening, the value and the closing quote; nothing for an absent value. */
  ghost function Shown(opening: string, value: Option<string>): string {
    if value.Some? then opening + value.value + "\"" else ""
  }

  lemma ParameterIsShown(separator: char, name: string, value: Option<string>, rest: string)
    ensures Parameter(separator, name, value, rest) == Shown([separator] + name + "=\"", value) + rest
  {
    if value.Some? {
      assert Quoted(value.value, rest) == "\"" + value.value + "\"" + rest;
      assert [separator] + (name + ['='] + Quoted(value.value, rest)) ==
             [separator] + name + "=\"" + value.value + "\"" + rest;
    } else {
      assert "" + rest == rest;
    }
  }

  /** The header spelled out, in the form of section 3 of RFC 6750. */
  lemma RenderedForm(realm: Option<string>, service: Option<string>, scope: Option<string>)
    ensures Rendered(realm, service, scope) ==
            "Bearer" + (Shown(" realm=\"", realm) + (Shown(",service=\"", service) + Shown(",scope=\"", scope)))
  {
    var tail := Parameter(',', "scope", scope, "");
    ParameterIsShown(',', "scope", scope, "");
    assert tail == Shown(",scope=\"", scope) by {
      assert [','] + "scope" + "=\"" == ",scope=\"";
    }
    ParameterIsShown(',', "service", service, tail);
    assert [','] + "service" + "=\"" == ",service=\"";
    ParameterIsShown(' ', "realm", realm, Parameter(',', "service", service, tail));
    assert [' '] + "realm" + "=\"" == " realm=\"";
  }

  // ---- Parsing ----

  datatype Field = Field(name: string, value: string)

  predicate IsSeparator(c: char) { c == ',' || c == ' ' }

  /** The value after '=', quoted or up to a comma, and the text after it; a missing end quote is forgiven. */
  function Value(text: string): (r: (string, string))
    ensures |r.1| <= |text|
  {
    if "\"" <= text then
      var end := IndexOf(text[1..], '"');
      (text[1..][..end], if end < |text[1..]| then text[1..][end + 1..] else "")
    else
      var end := IndexOf(text, ',');
      (text[..end], text[end..])
  }

  /** The first parameter and the text after it; None where no '=' is left. */
  function FirstField(text: string): (r: Option<(Field, string)>)
    ensures r.Some? ==> |r.value.1| < |text|
  {
    match SplitOnce(TrimStartMatches(text, IsSeparator), '=')
    case None => None
    case Some((name, rest)) => Some((Field(TrimText(name), Value(rest).0), Value(rest).1))
  }

  function Fields(text: string): seq<Field>
    decreases |text|
  {
    match FirstField(text)
    case None => []
    case Some((field, rest)) => [field] + Fields(rest)
  }

  function StripScheme(header: string): string {
    if "Bearer " <= header then header[7..] else header
  }

  datatype BearerChallenge = BearerChallenge(realm: string, service: Option<string>)

  /** The last value of each name counts. */
  function Assembled(fields: seq<Field>, realm: Option<string>, service: Option<string>): Result<BearerChallenge> {
    if fields != [] then
      Assembled(fields[1..], if fields[0].name == "realm" then Some(fields[0].value) else realm,
                if fields[0].name == "service" then Some(fields[0].value) else service)
    else if realm.Some? then Ok(BearerChallenge(realm.value, service))
    else Err
  }

  function Parsed(header: string): Result<BearerChallenge> {
    Assembled(Fields(StripScheme(header)), None, None)
  }

  lemma AssembledFirst(field: Field, rest: seq<Field>, realm: Option<string>, service: Option<string>)
    ensures Assembled([field] + rest, realm, service) ==
            Assembled(rest, if field.name == "realm" then Some(field.value) else realm,
                      if field.name == "service" then Some(field.value) else service)
  {
  }

  /** The parsing loop ends on every text: what remains gets shorter with each parameter. */
  method ParseBearerChallenge(header: string) returns (r: Result<BearerChallenge>)
    ensures r == Parsed(header)
  {
    var remaining := StripScheme(header);
    ghost var parsed := Parsed(header);
    var realm: Option<string>, service: Option<string> := None, None;
    while remaining != ""
      invariant Assembled(Fields(remaining), realm, service) == parsed
      decreases |remaining|
    {
      var first := FirstField(remaining);
      if first.None? {
        break;
      }
      var field := first.value.0;
      AssembledFirst(field, Fields(first.value.1), realm, service);
      match field.name {
        case "realm" => realm := Some(field.value);
        case "service" => service := Some(field.value);
        case _ =>
      }
      remaining := first.value.1;
    }
    assert FirstField(remaining).None?;
    r := if realm.Some? then Ok(BearerChallenge(realm.value, service)) else Err;
  }

  // ---- The parser recovers what was rendered ----

  /** An optional parameter as the fields it stands for. */
  function Sent(name: string, value: Option<string>): seq<Field> {
    match value case Some(v) => [Field(name, v)] case None => []
  }

  predicate NoQuote(value: Option<string>) {
    value.Some? ==> '"' !in value.value
  }

  /** A name the parser leaves as it is. */
  predicate IsName(name: string) {
    && name != "" && '=' !in name
    && !IsWhiteSpace(name[0]) && !IsWhiteSpace(name[|name| - 1]) && !IsSeparator(name[0])
  }

  lemma ParameterNames()
    ensures IsName("realm") && IsName("service") && IsName("scope") && IsName("Bearer") && IsName("\"")
  {
  }

  lemma ReadsValue(value: string, rest: string)
    requires '"' !in value
    ensures Value(Quoted(value, rest)) == (value, rest)
  {
    var text := Quoted(value, rest);
    assert text[1..] == value + ['"'] + rest;
    IndexOfIsUnique(value, '"', rest);
    assert text[1..][..|value|] == value && text[1..][|value| + 1..] == rest;
  }

  lemma TrimsName(name: string)
    requires IsName(name)
    ensures TrimText(name) == name
  {
  }

  lemma ReadsFirstField(text: string, name: string, value: string, rest: string)
    requires IsName(name) && '"' !in value && TrimStartMatches(text, IsSeparator) == name + ['='] + Quoted(value, rest)
    ensures FirstField(text) == Some((Field(name, value), rest))
  {
    SplitOnceJoined(name, '=', Quoted(value, rest));
    ReadsValue(value, rest);
    TrimsName(name);
  }

  lemma ReadsField(text: string, name: string, value: string, rest: string)
    requires IsName(name) && '"' !in value && TrimStartMatches(text, IsSeparator) == name + ['='] + Quoted(value, rest)
    ensures Fields(text) == [Field(name, value)] + Fields(rest)
  {
    ReadsFirstField(text, name, value, rest);
  }

  lemma ReadsUnquotedValue(value: string, rest: string)
    requires ',' !in value && '"' !in value && (rest != "" ==> rest[0] == ',')
    ensures Value(value + rest) == (value, rest)
  {
    var tail := value + rest;
    assert tail != "" ==> tail[0] != '"' by {
      assert value != "" ==> tail[0] == value[0] && value[0] in value;
    }
    if rest == "" {
      assert tail == value && tail[..|value|] == value && tail[|value|..] == rest;
    } else {
      assert tail == value + [','] + rest[1..];
      IndexOfIsUnique(value, ',', rest[1..]);
      assert tail[..|value|] == value && tail[|value|..] == rest;
    }
  }

  /** A value without quotes goes up to the next comma, or to the end. */
  lemma ReadsUnquoted(name: string, value: string, rest: string)
    requires IsName(name) && ',' !in value && '"' !in value && (rest != "" ==> rest[0] == ',')
    ensures FirstField(name + ['='] + (value + rest)) == Some((Field(name, value), rest))
  {
    assert name + ['='] + (value + rest) == name + (['='] + (value + rest));
    NoSeparator(name, ['='] + (value + rest));
    SplitOnceJoined(name, '=', value + rest);
    TrimsName(name);
    ReadsUnquotedValue(value, rest);
  }

  lemma NoSeparator(name: string, tail: string)
    requires IsName(name)
    ensures TrimStartMatches(name + tail, IsSeparator) == name + tail
  {
  }

  /** A rendered parameter is read back and leaves what followed it. */
  lemma ReadsParameter(separator: char, name: string, value: Option<string>, rest: string)
    requires IsSeparator(separator) && IsName(name) && NoQuote(value)
    ensures Fields(Parameter(separator, name, value, rest)) == Sent(name, value) + Fields(rest)
  {
    if value.Some? {
      var body := name + ['='] + Quoted(value.value, rest);
      assert body == name + (['='] + Quoted(value.value, rest));
      NoSeparator(name, ['='] + Quoted(value.value, rest));
      assert ([separator] + body)[1..] == body;
      ReadsField([separator] + body, name, value.value, rest);
    }
  }

  /** A parameter right at the start of the text. */
  lemma ReadsFirst(name: string, value: string, rest: string)
    requires IsName(name) && '"' !in value
    ensures Fields(name + ['='] + Quoted(value, rest)) == [Field(name, value)] + Fields(rest)
  {
    var text := name + ['='] + Quoted(value, rest);
    assert text == name + (['='] + Quoted(value, rest));
    NoSeparator(name, ['='] + Quoted(value, rest));
    ReadsField(text, name, value, rest);
  }

  /** Service and scope set the service and leave the realm. */
  lemma AssembledTail(realm: Option<string>, service: Option<string>, scope: Option<string>)
    ensures Assembled(Sent("service", service) + Sent("scope", scope), realm, None) ==
            if realm.Some? then Ok(BearerChallenge(realm.value, service)) else Err
  {
    var last := Sent("scope", scope);
    if scope.Some? {
      AssembledFirst(last[0], [], realm, service);
      assert [last[0]] + [] == last;
    }
    if service.Some? {
      AssembledFirst(Field("service", service.value), last, realm, None);
    } else {
      assert [] + last == last;
    }
  }

  function Tail(service: Option<string>, scope: Option<string>): string {
    Parameter(',', "service", service, Parameter(',', "scope", scope, ""))
  }

  lemma ReadsTail(service: Option<string>, scope: Option<string>)
    requires NoQuote(service) && NoQuote(scope)
    ensures Fields(Tail(service, scope)) == Sent("service", service) + Sent("scope", scope)
  {
    ParameterNames();
    ReadsParameter(',', "service", service, Parameter(',', "scope", scope, ""));
    ReadsParameter(',', "scope", scope, "");
    assert Fields("") == [] && Sent("scope", scope) + [] == Sent("scope", scope);
  }

  lemma RecoversWithRealm(realm: string, service: Option<string>, scope: Option<string>)
    requires '"' !in realm && NoQuote(service) && NoQuote(scope)
    ensures Parsed(Rendered(Some(realm), service, scope)) == Ok(BearerChallenge(realm, service))
  {
    var tail := Tail(service, scope);
    var text := "realm" + ['='] + Quoted(realm, tail);
    SchemeIsStripped(text);
    ParameterNames();
    ReadsFirst("realm", realm, tail);
    ReadsTail(service, scope);
    AssembledFirst(Field("realm", realm), Sent("service", service) + Sent("scope", scope), None, None);
    AssembledTail(Some(realm), service, scope);
  }

  lemma SchemeIsStripped(text: string)
    ensures StripScheme("Bearer" + ([' '] + text)) == text
  {
  }

  /** Without a realm nothing is stripped. */
  lemma SchemeStays(tail: string)
    requires tail == "" || tail[0] == ','
    ensures StripScheme("Bearer" + tail) == "Bearer" + tail
  {
    assert tail != "" ==> ("Bearer" + tail)[6] == ',';
  }

  lemma FusedText(prefix: string, name: string, value: string, rest: string)
    ensures prefix + Parameter(',', name, Some(value), rest) == prefix + [','] + name + ['='] + Quoted(value, rest)
  {
    var tail := ['='] + Quoted(value, rest);
    assert name + ['='] + Quoted(value, rest) == name + tail;
    assert prefix + ([','] + (name + tail)) == prefix + [','] + name + tail;
    assert prefix + [','] + name + tail == prefix + [','] + name + ['='] + Quoted(value, rest);
  }

  lemma FusedName(prefix: string, name: string)
    requires IsName(prefix) && IsName(name)
    ensures IsName(prefix + [','] + name) && (prefix + [','] + name)[0] == prefix[0]
  {
    var fused := prefix + [','] + name;
    assert fused[|fused| - 1] == name[|name| - 1];
  }

  /** Text right before a parameter runs into its name. */
  lemma ReadsFused(prefix: string, name: string, value: string, rest: string)
    requires IsName(prefix) && IsName(name) && '"' !in value
    ensures Fields(prefix + Parameter(',', name, Some(value), rest)) ==
            [Field(prefix + [','] + name, value)] + Fields(rest)
  {
    FusedText(prefix, name, value, rest);
    FusedName(prefix, name);
    ReadsFirst(prefix + [','] + name, value, rest);
  }

  /** A field of another name followed by the scope gives no realm. */
  lemma NoRealm(first: Field, scope: Option<string>)
    requires first.name != "realm"
    ensures Assembled([first] + Sent("scope", scope), None, None) == Err
  {
    AssembledFirst(first, Sent("scope", scope), None, None);
    if scope.Some? {
      var service := if first.name == "service" then Some(first.value) else None;
      AssembledFirst(Field("scope", scope.value), [], None, service);
      assert [Field("scope", scope.value)] + [] == Sent("scope", scope);
    }
  }

  /** The scheme runs into the name of the first parameter, which is then nobody's. */
  lemma FusedScheme(name: string, value: string, rest: string, scope: Option<string>)
    requires IsName(name) && '"' !in value && Fields(rest) == Sent("scope", scope)
    ensures Assembled(Fields("Bearer" + Parameter(',', name, Some(value), rest)), None, None) == Err
  {
    ParameterNames();
    ReadsFused("Bearer", name, value, rest);
    FusedName("Bearer", name);
    NoRealm(Field("Bearer" + [','] + name, value), scope);
  }

  lemma FailsWithoutRealm(service: Option<string>, scope: Option<string>)
    requires NoQuote(service) && NoQuote(scope)
    ensures Parsed(Rendered(None, service, scope)) == Err
  {
    ParameterNames();
    SchemeStays(Tail(service, scope));
    ReadsTail(None, scope);
    assert [] + Sent("scope", scope) == Sent("scope", scope);
    if service.Some? {
      FusedScheme("service", service.value, Parameter(',', "scope", scope, ""), scope);
    } else if scope.Some? {
      assert Fields("") == [] == Sent("scope", None);
      FusedScheme("scope", scope.value, "", None);
    } else {
      BareScheme();
    }
  }

  lemma BareScheme()
    ensures Fields("Bearer" + "") == []
  {
  }

  /**
   For every realm, service and scope without a double quote: with a realm the clients recover realm
   and service exactly, and without one they report an error.
   */
  lemma ParserRecoversChallenge(realm: Option<string>, service: Option<string>, scope: Option<string>)
    requires NoQuote(realm) && NoQuote(service) && NoQuote(scope)
    ensures Parsed(Rendered(realm, service, scope)) ==
            if realm.Some? then Ok(BearerChallenge(realm.value, service)) else Err
  {
    if realm.Some? {
      RecoversWithRealm(realm.value, service, scope);
    } else {
      FailsWithoutRealm(service, scope);
    }
  }
}
