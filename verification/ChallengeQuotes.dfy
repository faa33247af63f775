/**
 Challenges whose values hold a double quote. The server does not escape it (error.rs), so the first
 value with a quote ends there and what follows is read as further parameters: the challenge is
 recovered exactly when those set realm and service back to what was rendered.
 */
module ChallengeQuotes {
  import opened Common
  import opened Text
  import opened Challenge

  // ---- The last value of a name ----

  function LastValue(fields: seq<Field>, name: string): Option<string> {
    if fields == [] then None
    else
      var later := LastValue(fields[1..], name);
      if later.None? && fields[0].name == name then Some(fields[0].value) else later
  }

  function OrElse(a: Option<string>, b: Option<string>): Option<string> {
    if a.Some? then a else b
  }

  function Built(realm: Option<string>, service: Option<string>): Result<BearerChallenge> {
    if realm.Some? then Ok(BearerChallenge(realm.value, service)) else Err
  }

  lemma {:induction false} AssembledMeaning(fields: seq<Field>, realm: Option<string>, service: Option<string>)
    ensures Assembled(fields, realm, service) ==
            Built(OrElse(LastValue(fields, "realm"), realm), OrElse(LastValue(fields, "service"), service))
    decreases |fields|
  {
    if fields != [] {
      var r := if fields[0].name == "realm" then Some(fields[0].value) else realm;
      var s := if fields[0].name == "service" then Some(fields[0].value) else service;
      AssembledMeaning(fields[1..], r, s);
    }
  }

  ghost predicate NeverValue(fields: seq<Field>, value: string) {
    forall f :: f in fields ==> f.value != value
  }

  lemma {:induction false} LastIsSomeValue(fields: seq<Field>, name: string, value: string)
    requires NeverValue(fields, value)
    ensures LastValue(fields, name) != Some(value)
  {
    if fields != [] {
      assert fields[0] in fields;
      LastIsSomeValue(fields[1..], name, value);
    }
  }

  // ---- Where values come from ----

  /** `v` stands in the text right after an '=', does not start with a quote and holds no comma. */
  ghost predicate StandsAt(text: string, i: nat, v: string) {
    && 1 <= i && i + |v| <= |text| && text[i - 1] == '=' && (i < |text| ==> text[i] != '"')
    && forall x :: i <= x < i + |v| ==> text[x] == v[x - i] && text[x] != ','
  }

  ghost predicate Stands(text: string, v: string) {
    exists i: nat :: StandsAt(text, i, v)
  }

  lemma {:induction false} TrimmedIsSuffix(s: string, drop: char -> bool) returns (k: nat)
    ensures k <= |s| && TrimStartMatches(s, drop) == s[k..]
  {
    k := 0;
    if s != [] && drop(s[0]) {
      k := TrimmedIsSuffix(s[1..], drop);
      k := k + 1;
    }
  }

  lemma ValuePlace(text: string) returns (k: nat)
    ensures k <= |text| && Value(text).1 == text[k..]
    ensures '"' !in Value(text).0 ||
            (Value(text).0 == text[..k] && ',' !in text[..k] && (text != "" ==> text[0] != '"'))
  {
    if "\"" <= text {
      var end := IndexOf(text[1..], '"');
      k := if end < |text[1..]| then end + 2 else |text|;
    } else {
      k := IndexOf(text, ',');
    }
  }

  lemma AssignedPlace(text: string, i: nat) returns (m: nat)
    requires 1 <= i <= |text| && text[i - 1] == '='
    ensures m <= |text| && Value(text[i..]).1 == text[m..]
    ensures '"' !in Value(text[i..]).0 || Stands(text, Value(text[i..]).0)
  {
    var n := ValuePlace(text[i..]);
    m := i + n;
    var v := Value(text[i..]).0;
    assert text[i..][n..] == text[m..] && text[i..][..n] == text[i..m];
    if '"' in v {
      assert v == text[i..m];
      assert forall x :: i <= x < m ==> text[x] == v[x - i] && v[x - i] in v;
      assert StandsAt(text, i, v);
    }
  }

  /** The first value is what follows some '='. */
  lemma FirstAssigned(text: string) returns (i: nat)
    requires FirstField(text).Some?
    ensures 1 <= i <= |text| && text[i - 1] == '='
    ensures FirstField(text).value.0.value == Value(text[i..]).0 && FirstField(text).value.1 == Value(text[i..]).1
  {
    var k := TrimmedIsSuffix(text, IsSeparator);
    i := k + IndexOf(text[k..], '=') + 1;
    assert text[k..][i - k..] == text[i..];
  }

  /** A value with a quote in it was not quoted, and so stands in the text; what remains is a suffix. */
  lemma FirstPlace(text: string) returns (m: nat)
    requires FirstField(text).Some?
    ensures m <= |text| && FirstField(text).value.1 == text[m..]
    ensures '"' !in FirstField(text).value.0.value || Stands(text, FirstField(text).value.0.value)
  {
    var i := FirstAssigned(text);
    m := AssignedPlace(text, i);
  }

  lemma StandsLater(text: string, m: nat, v: string)
    requires m <= |text| && Stands(text[m..], v)
    ensures Stands(text, v)
  {
    var i: nat :| StandsAt(text[m..], i, v);
    assert StandsAt(text, m + i, v);
  }

  lemma {:induction false} ValuesStand(text: string, f: Field)
    requires f in Fields(text) && '"' in f.value
    ensures Stands(text, f.value)
    decreases |text|
  {
    var m := FirstPlace(text);
    var first := FirstField(text).value;
    if f != first.0 {
      assert f in Fields(first.1);
      ValuesStand(first.1, f);
      StandsLater(text, m, f.value);
    }
  }

  // ---- What follows a cut value ----

  /** Text `text` ends in `tail`, from position `n` on. */
  ghost predicate EndsIn(text: string, n: nat, tail: string) {
    n + |tail| == |text| && forall x :: n <= x < |text| ==> text[x] == tail[x - n]
  }

  predicate Closes(tail: string, p: nat) {
    p + 1 < |tail| ==> tail[p + 1] == ','
  }

  /** A quote right after the only '=' since some comma. */
  ghost predicate OpensFrom(tail: string, m: nat, p: nat) {
    m + 1 < p < |tail| && tail[m] == ',' && tail[p - 1] == '=' && forall x :: m < x < p - 1 ==> tail[x] != '='
  }

  ghost predicate Opens(tail: string, p: nat) {
    exists m: nat :: OpensFrom(tail, m, p)
  }

  /** Rendered parameters without quotes of their own: every quote opens or closes a value. */
  ghost predicate Quiet(tail: string) {
    && (tail != "" ==> tail[0] == ',')
    && forall p :: 0 <= p < |tail| && tail[p] == '"' ==> Closes(tail, p) || Opens(tail, p)
  }

  /** Where the quotes of a rendered parameter are. */
  lemma ParameterText(name: string, v: string, rest: string)
    ensures var tail, open := Parameter(',', name, Some(v), rest), |name| + 2;
            && |tail| == open + |v| + 2 + |rest| && tail[0] == ',' && tail[open - 1] == '='
            && (forall x :: 1 <= x < open - 1 ==> tail[x] == name[x - 1])
            && (forall x :: open < x < open + 1 + |v| ==> tail[x] == v[x - open - 1])
            && EndsIn(tail, open + |v| + 2, rest)
  {
    var tail := Parameter(',', name, Some(v), rest);
    assert tail == [','] + name + ['=', '"'] + v + ['"'] + rest;
  }

  lemma QuietParameter(name: string, value: Option<string>, rest: string)
    requires '=' !in name && '"' !in name && NoQuote(value) && Quiet(rest)
    ensures Quiet(Parameter(',', name, value, rest))
  {
    if value.Some? {
      var tail, open, v := Parameter(',', name, value, rest), |name| + 2, value.value;
      ParameterText(name, v, rest);
      forall p: nat | p < |tail| && tail[p] == '"' ensures Closes(tail, p) || Opens(tail, p) {
        if p == open {
          assert OpensFrom(tail, 0, p);
        } else if p >= open + |v| + 2 {
          QuoteOfRest(tail, open + |v| + 2, rest, p - (open + |v| + 2));
        } else {
          assert p == open + |v| + 1;
        }
      }
    }
  }

  lemma QuoteOfRest(text: string, n: nat, rest: string, q: nat)
    requires EndsIn(text, n, rest) && Quiet(rest) && q < |rest| && rest[q] == '"'
    ensures Closes(text, n + q) || Opens(text, n + q)
  {
    if !Closes(rest, q) {
      var m: nat :| OpensFrom(rest, m, q);
      assert OpensFrom(text, n + m, n + q);
    }
  }

  lemma QuietTail(service: Option<string>, scope: Option<string>)
    requires NoQuote(service) && NoQuote(scope)
    ensures Quiet(Tail(service, scope))
  {
    QuietParameter("scope", scope, "");
    QuietParameter("service", service, Parameter(',', "scope", scope, ""));
  }

  /** After a cut, a value that stands in the text is no longer than what was lost, or holds a quote only at its end. */
  lemma StandingIsShort(lost: string, tail: string, v: string)
    requires Quiet(tail) && Stands(lost + ['"'] + tail, v)
    ensures |v| <= |lost| || forall k :: 0 <= k < |v| - 1 ==> v[k] != '"'
  {
    var text, n := lost + ['"'] + tail, |lost| + 1;
    assert EndsIn(text, n, tail);
    var i: nat :| StandsAt(text, i, v);
    if i + |v| > n {
      assert text[n] == tail[0] == ',';
      forall k | 0 <= k < |v| - 1 ensures v[k] != '"' {
        StandingQuote(text, n, tail, i, v, k);
      }
    }
  }

  lemma StandingQuote(text: string, n: nat, tail: string, i: nat, v: string, k: nat)
    requires EndsIn(text, n, tail) && Quiet(tail) && StandsAt(text, i, v) && n < i && k < |v| - 1
    ensures v[k] != '"'
  {
    var p, eq := i + k - n, i - 1 - n;
    assert text[n + p] == tail[p] == v[k] && text[n + p + 1] == tail[p + 1] && text[n + eq] == tail[eq] == '=';
    if k > 0 {
      forall m: nat ensures !OpensFrom(tail, m, p) {
        assert m < |tail| ==> text[n + m] == tail[m];
      }
    }
  }

  ghost predicate NoQuoteIn(fields: seq<Field>) {
    forall f :: f in fields ==> '"' !in f.value
  }

  lemma SpoiltFirst(name: string, value: string, rest: string)
    requires IsName(name) && '"' !in value && NoQuoteIn(Fields(rest))
    ensures NoQuoteIn(Fields("\"" + Parameter(',', name, Some(value), rest)))
  {
    ParameterNames();
    ReadsFused("\"", name, value, rest);
  }

  /** Right after a lost end quote the next parameter's name is spoilt, and no value holds a quote. */
  lemma SpoiltName(service: Option<string>, scope: Option<string>)
    requires NoQuote(service) && NoQuote(scope)
    ensures NoQuoteIn(Fields("\"" + Tail(service, scope)))
  {
    ParameterNames();
    ReadsTail(None, scope);
    NoFields("");
    if service.Some? {
      SpoiltFirst("service", service.value, Tail(None, scope));
    } else if scope.Some? {
      SpoiltFirst("scope", scope.value, "");
    } else {
      NoFields("\"" + "");
    }
  }

  lemma {:induction false} NoFields(text: string)
    requires '=' !in text
    ensures Fields(text) == [] && '=' !in TrimStartMatches(text, IsSeparator)
  {
    if text != "" && IsSeparator(text[0]) {
      NoFields(text[1..]);
    }
  }

  /** What may follow a cut value: it can neither hold that value nor complete it. */
  ghost predicate Harmless(tail: string) {
    Quiet(tail) && NoQuoteIn(Fields("\"" + tail))
  }

  lemma HarmlessTail(service: Option<string>, scope: Option<string>)
    requires NoQuote(service) && NoQuote(scope)
    ensures Harmless(Tail(service, scope))
  {
    QuietTail(service, scope);
    SpoiltName(service, scope);
  }

  /** Whatever is read after a cut value, it is not that value. */
  lemma CutValueIsLost(kept: string, lost: string, tail: string)
    requires Harmless(tail)
    ensures NeverValue(Fields(lost + ['"'] + tail), kept + ['"'] + lost)
  {
    var value := kept + ['"'] + lost;
    assert value[|kept|] == '"';
    if lost == "" {
      assert lost + ['"'] + tail == "\"" + tail;
    } else {
      forall f | f in Fields(lost + ['"'] + tail) && '"' in f.value ensures f.value != value {
        ValuesStand(lost + ['"'] + tail, f);
        StandingIsShort(lost, tail, f.value);
      }
    }
  }

  // ---- Exact conditions ----

  lemma CutQuoted(kept: string, lost: string, rest: string)
    ensures Quoted(kept + ['"'] + lost, rest) == Quoted(kept, lost + ['"'] + rest)
  {
    assert kept + ['"'] + lost + ['"'] + rest == kept + ['"'] + (lost + ['"'] + rest);
  }

  function AfterScheme(header: string): seq<Field> {
    Fields(StripScheme(header))
  }

  function WithRealm(realm: string, rest: string): string {
    "Bearer" + Parameter(' ', "realm", Some(realm), rest)
  }

  lemma ReadsRealm(realm: string, rest: string)
    requires '"' !in realm
    ensures AfterScheme(WithRealm(realm, rest)) == [Field("realm", realm)] + Fields(rest)
  {
    ParameterNames();
    SchemeIsStripped("realm" + ['='] + Quoted(realm, rest));
    ReadsFirst("realm", realm, rest);
  }

  lemma ReadsService(realm: string, service: Option<string>, rest: string)
    requires '"' !in realm && NoQuote(service)
    ensures AfterScheme(WithRealm(realm, Parameter(',', "service", service, rest))) ==
            [Field("realm", realm)] + (Sent("service", service) + Fields(rest))
  {
    ParameterNames();
    ReadsRealm(realm, Parameter(',', "service", service, rest));
    ReadsParameter(',', "service", service, rest);
  }

  lemma CutTexts(realm: string, service: Option<string>, scope: Option<string>, kept: string, lost: string)
    ensures Rendered(Some(kept + ['"'] + lost), service, scope) == WithRealm(kept, lost + ['"'] + Tail(service, scope))
    ensures Rendered(Some(realm), Some(kept + ['"'] + lost), scope) ==
            WithRealm(realm, Parameter(',', "service", Some(kept), lost + ['"'] + Tail(None, scope)))
    ensures Rendered(Some(realm), service, Some(kept + ['"'] + lost)) ==
            WithRealm(realm, Parameter(',', "service", service, Parameter(',', "scope", Some(kept), lost + ['"'])))
  {
    CutQuoted(kept, lost, Tail(service, scope));
    CutQuoted(kept, lost, Tail(None, scope));
    CutQuoted(kept, lost, "");
    assert lost + ['"'] + "" == lost + ['"'];
  }

  /** A quote in the realm: the realm ends there and the text after it is read as parameters. */
  lemma RealmIsCut(kept: string, lost: string, service: Option<string>, scope: Option<string>)
    requires '"' !in kept
    ensures AfterScheme(Rendered(Some(kept + ['"'] + lost), service, scope)) ==
            [Field("realm", kept)] + Fields(lost + ['"'] + Tail(service, scope))
  {
    CutTexts("", service, scope, kept, lost);
    ReadsRealm(kept, lost + ['"'] + Tail(service, scope));
  }

  /** The same for the service. */
  lemma ServiceIsCut(realm: string, kept: string, lost: string, scope: Option<string>)
    requires '"' !in realm && '"' !in kept
    ensures AfterScheme(Rendered(Some(realm), Some(kept + ['"'] + lost), scope)) ==
            [Field("realm", realm)] + ([Field("service", kept)] + Fields(lost + ['"'] + Tail(None, scope)))
  {
    CutTexts(realm, None, scope, kept, lost);
    ReadsService(realm, Some(kept), lost + ['"'] + Tail(None, scope));
  }

  /** The same for the scope. */
  lemma ScopeIsCut(realm: string, service: Option<string>, kept: string, lost: string)
    requires '"' !in realm && NoQuote(service) && '"' !in kept
    ensures AfterScheme(Rendered(Some(realm), service, Some(kept + ['"'] + lost))) ==
            [Field("realm", realm)] + (Sent("service", service) + ([Field("scope", kept)] + Fields(lost + ['"'])))
  {
    ParameterNames();
    CutTexts(realm, service, None, kept, lost);
    ReadsService(realm, service, Parameter(',', "scope", Some(kept), lost + ['"']));
    ReadsParameter(',', "scope", Some(kept), lost + ['"']);
  }

  /** With service and scope free of quotes, the challenge is recovered exactly when the realm is too. */
  lemma RealmRecoveredIff(realm: string, service: Option<string>, scope: Option<string>)
    requires NoQuote(service) && NoQuote(scope)
    ensures Parsed(Rendered(Some(realm), service, scope)) == Ok(BearerChallenge(realm, service)) <==> '"' !in realm
  {
    if '"' in realm {
      var i := IndexOf(realm, '"');
      var kept, lost := realm[..i], realm[i + 1..];
      assert realm == kept + ['"'] + lost;
      RealmIsCut(kept, lost, service, scope);
      HarmlessTail(service, scope);
      CutValueIsLost(kept, lost, Tail(service, scope));
      var fields := AfterScheme(Rendered(Some(realm), service, scope));
      LastIsSomeValue(fields, "realm", realm);
      AssembledMeaning(fields, None, None);
    } else {
      ParserRecoversChallenge(Some(realm), service, scope);
    }
  }

  /** With realm and scope free of quotes, the challenge is recovered exactly when the service is too. */
  lemma ServiceRecoveredIff(realm: string, service: string, scope: Option<string>)
    requires '"' !in realm && NoQuote(scope)
    ensures Parsed(Rendered(Some(realm), Some(service), scope)) == Ok(BearerChallenge(realm, Some(service))) <==>
            '"' !in service
  {
    if '"' in service {
      var i := IndexOf(service, '"');
      var kept, lost := service[..i], service[i + 1..];
      assert service == kept + ['"'] + lost;
      ServiceIsCut(realm, kept, lost, scope);
      HarmlessTail(None, scope);
      CutValueIsLost(kept, lost, Tail(None, scope));
      ServiceIsLost(realm, service, kept, Fields(lost + ['"'] + Tail(None, scope)));
    } else {
      ParserRecoversChallenge(Some(realm), Some(service), scope);
    }
  }

  lemma ServiceIsLost(realm: string, service: string, kept: string, later: seq<Field>)
    requires kept != service && NeverValue(later, service)
    ensures Assembled([Field("realm", realm)] + ([Field("service", kept)] + later), None, None) !=
            Ok(BearerChallenge(realm, Some(service)))
  {
    AssembledFirst(Field("realm", realm), [Field("service", kept)] + later, None, None);
    AssembledFirst(Field("service", kept), later, Some(realm), None);
    LastIsSomeValue(later, "service", service);
    AssembledMeaning(later, Some(realm), Some(kept));
  }

  /** No later parameter of that name says anything else. */
  predicate Agrees(later: seq<Field>, name: string, value: Option<string>) {
    LastValue(later, name).None? || LastValue(later, name) == value
  }

  /**
   A quote in the scope does no harm exactly when the parameters read after it repeat realm and service or
   leave them alone.
   */
  lemma ScopeRecoveredIff(realm: string, service: Option<string>, kept: string, lost: string)
    requires '"' !in realm && NoQuote(service) && '"' !in kept
    ensures Parsed(Rendered(Some(realm), service, Some(kept + ['"'] + lost))) ==
            Ok(BearerChallenge(realm, service)) <==>
            Agrees(Fields(lost + ['"']), "realm", Some(realm)) && Agrees(Fields(lost + ['"']), "service", service)
  {
    var later := Fields(lost + ['"']);
    ScopeIsCut(realm, service, kept, lost);
    AssembledScope(realm, service, kept, later);
    AssembledMeaning(later, Some(realm), service);
  }

  lemma AssembledScope(realm: string, service: Option<string>, kept: string, later: seq<Field>)
    ensures var fields := [Field("realm", realm)] + (Sent("service", service) + ([Field("scope", kept)] + later));
            Assembled(fields, None, None) == Assembled(later, Some(realm), service)
  {
    var scoped := [Field("scope", kept)] + later;
    AssembledFirst(Field("realm", realm), Sent("service", service) + scoped, None, None);
    if service.Some? {
      AssembledFirst(Field("service", service.value), scoped, Some(realm), None);
    } else {
      assert [] + scoped == scoped;
    }
    AssembledFirst(Field("scope", kept), later, Some(realm), service);
  }

  /** A parameter read behind a quote takes effect: the last realm counts, wherever it stood. */
  lemma LaterRealmWins(realm: string, service: Option<string>, kept: string, other: string)
    requires '"' !in realm && NoQuote(service) && '"' !in kept && '"' !in other
    ensures Parsed(Rendered(Some(realm), service, Some(kept + ['"'] + Reopened(other)))) ==
            Ok(BearerChallenge(other, service))
    ensures Parsed(Rendered(Some(realm), Some(kept + ['"'] + Reopened(other)), None)) ==
            Ok(BearerChallenge(other, Some(kept)))
    ensures Parsed(Rendered(Some(kept + ['"'] + Reopened(other)), None, None)) == Ok(BearerChallenge(other, None))
  {
    var lost := Reopened(other);
    var later := [Field("realm", other)];
    ReadsReopened(other);
    assert lost + ['"'] + Tail(None, None) == lost + ['"'];
    ScopeIsCut(realm, service, kept, lost);
    AssembledScope(realm, service, kept, later);
    ServiceIsCut(realm, kept, lost, None);
    RealmIsCut(kept, lost, None, None);
    AssembledPairs(realm, kept, other);
  }

  lemma AssembledPairs(realm: string, kept: string, other: string)
    ensures forall service ::
              Assembled([Field("realm", other)], Some(realm), service) == Ok(BearerChallenge(other, service))
    ensures Assembled([Field("realm", realm)] + ([Field("service", kept)] + [Field("realm", other)]), None, None) ==
            Ok(BearerChallenge(other, Some(kept)))
    ensures Assembled([Field("realm", kept)] + [Field("realm", other)], None, None) == Ok(BearerChallenge(other, None))
  {
    var last := [Field("realm", other)];
    forall service ensures Assembled(last, Some(realm), service) == Ok(BearerChallenge(other, service)) {
      AssembledFirst(Field("realm", other), [], Some(realm), service);
    }
    AssembledFirst(Field("service", kept), last, Some(realm), None);
    AssembledFirst(Field("realm", realm), [Field("service", kept)] + last, None, None);
    AssembledFirst(Field("realm", kept), last, None, None);
    AssembledFirst(Field("realm", other), [], Some(kept), None);
    AssembledFirst(Field("realm", other), [], Some(realm), Some(kept));
  }

  /** A value that goes on with a realm of its own, up to the end quote the server adds. */
  function Reopened(other: string): string {
    ",realm" + ['='] + ['"'] + other
  }

  lemma ReadsReopened(other: string)
    requires '"' !in other
    ensures Fields(Reopened(other) + ['"']) == [Field("realm", other)]
  {
    assert Reopened(other) + ['"'] == Parameter(',', "realm", Some(other), "");
    ReadsParameter(',', "realm", Some(other), "");
    NoFields("");
  }

  // ---- Every challenge ----

  function Kept(value: string): string { value[..IndexOf(value, '"')] }

  function Lost(value: string): string
    requires '"' in value
  {
    value[IndexOf(value, '"') + 1..]
  }

  lemma KeptAndLost(value: string)
    requires '"' in value
    ensures value == Kept(value) + ['"'] + Lost(value) && '"' !in Kept(value) && Kept(value) != value
  {
    var i := IndexOf(value, '"');
    assert value == value[..i] + [value[i]] + value[i + 1..];
  }

  /** The parameters up to the first quote inside a value, and the text that is read after it. */
  datatype Cut = Cut(fields: seq<Field>, rest: string)

  function CutAt(realm: string, service: Option<string>, scope: Option<string>): Cut {
    var first := [Field("realm", realm)];
    if '"' in realm then Cut([Field("realm", Kept(realm))], Lost(realm) + ['"'] + Tail(service, scope))
    else if !NoQuote(service) then
      Cut(first + [Field("service", Kept(service.value))], Lost(service.value) + ['"'] + Tail(None, scope))
    else if !NoQuote(scope) then
      Cut(first + Sent("service", service) + [Field("scope", Kept(scope.value))], Lost(scope.value) + ['"'])
    else Cut(first + Sent("service", service) + Sent("scope", scope), "")
  }

  lemma ReadsCut(realm: string, service: Option<string>, scope: Option<string>)
    ensures var cut := CutAt(realm, service, scope);
            AfterScheme(Rendered(Some(realm), service, scope)) == cut.fields + Fields(cut.rest)
  {
    var r := [Field("realm", realm)];
    if '"' in realm {
      KeptAndLost(realm);
      RealmIsCut(Kept(realm), Lost(realm), service, scope);
    } else if !NoQuote(service) {
      KeptAndLost(service.value);
      ServiceIsCut(realm, Kept(service.value), Lost(service.value), scope);
      Regroup(r, [Field("service", Kept(service.value))], Fields(Lost(service.value) + ['"'] + Tail(None, scope)));
    } else if !NoQuote(scope) {
      KeptAndLost(scope.value);
      ScopeIsCut(realm, service, Kept(scope.value), Lost(scope.value));
      var kept, later := [Field("scope", Kept(scope.value))], Fields(Lost(scope.value) + ['"']);
      Regroup(r, Sent("service", service), kept + later);
      Regroup(r + Sent("service", service), kept, later);
    } else {
      ReadsUncut(realm, service, scope);
    }
  }

  lemma Regroup(a: seq<Field>, b: seq<Field>, c: seq<Field>)
    ensures a + (b + c) == a + b + c
  {
  }

  lemma ReadsUncut(realm: string, service: Option<string>, scope: Option<string>)
    requires '"' !in realm && NoQuote(service) && NoQuote(scope)
    ensures AfterScheme(Rendered(Some(realm), service, scope)) ==
            [Field("realm", realm)] + Sent("service", service) + Sent("scope", scope) + Fields("")
  {
    NoFields("");
    ReadsRealm(realm, Tail(service, scope));
    ReadsTail(service, scope);
    Regroup([Field("realm", realm)], Sent("service", service), Sent("scope", scope));
  }

  lemma {:induction false} LastOfAppend(a: seq<Field>, b: seq<Field>, name: string)
    ensures LastValue(a + b, name) == OrElse(LastValue(b, name), LastValue(a, name))
    decreases |a|
  {
    if a == [] {
      assert a + b == b;
    } else {
      LastOfAppend(a[1..], b, name);
      assert (a + b)[1..] == a[1..] + b;
    }
  }

  /** Later parameters, or else the first ones, give the name that value. */
  predicate Restores(first: seq<Field>, later: seq<Field>, name: string, value: Option<string>) {
    OrElse(LastValue(later, name), LastValue(first, name)) == value
  }

  /**
   Whatever the three values hold: with a realm, the challenge is recovered if and only if the parameters
   read after the first quote inside a value set realm and service back to what was rendered.
   */
  lemma RecoveredIff(realm: string, service: Option<string>, scope: Option<string>)
    ensures var cut := CutAt(realm, service, scope);
            Parsed(Rendered(Some(realm), service, scope)) == Ok(BearerChallenge(realm, service)) <==>
            && Restores(cut.fields, Fields(cut.rest), "realm", Some(realm))
            && Restores(cut.fields, Fields(cut.rest), "service", service)
  {
    var cut := CutAt(realm, service, scope);
    ReadsCut(realm, service, scope);
    RestoredIff(cut.fields, Fields(cut.rest), realm, service);
  }

  lemma RestoredIff(first: seq<Field>, later: seq<Field>, realm: string, service: Option<string>)
    ensures Assembled(first + later, None, None) == Ok(BearerChallenge(realm, service)) <==>
            Restores(first, later, "realm", Some(realm)) && Restores(first, later, "service", service)
  {
    LastOfAppend(first, later, "realm");
    LastOfAppend(first, later, "service");
    AssembledMeaning(first + later, None, None);
  }

  /** The text read after the first quote inside a value, when no realm is rendered. */
  function RestWithoutRealm(service: Option<string>, scope: Option<string>): string {
    if !NoQuote(service) then Lost(service.value) + ['"'] + Tail(None, scope)
    else if !NoQuote(scope) then Lost(scope.value) + ['"']
    else ""
  }

  /**
   Without a realm the clients report an error if and only if no realm is read after the first quote inside a
   value.
   */
  lemma NoRealmIff(service: Option<string>, scope: Option<string>)
    ensures Parsed(Rendered(None, service, scope)) == Err <==>
            LastValue(Fields(RestWithoutRealm(service, scope)), "realm").None?
  {
    ParameterNames();
    SchemeStays(Tail(service, scope));
    if !NoQuote(service) {
      KeptAndLost(service.value);
      CutQuoted(Kept(service.value), Lost(service.value), Tail(None, scope));
      FusedRest("service", Kept(service.value), RestWithoutRealm(service, scope));
    } else if !NoQuote(scope) {
      KeptAndLost(scope.value);
      CutQuoted(Kept(scope.value), Lost(scope.value), "");
      assert Lost(scope.value) + ['"'] + "" == Lost(scope.value) + ['"'];
      NoRealmScope(service, Kept(scope.value), Lost(scope.value) + ['"']);
    } else {
      NoFields("");
      FailsWithoutRealm(service, scope);
    }
  }

  lemma NoRealmScope(service: Option<string>, kept: string, rest: string)
    requires NoQuote(service) && '"' !in kept
    ensures var text := Parameter(',', "service", service, Parameter(',', "scope", Some(kept), rest));
            Assembled(Fields("Bearer" + text), None, None) == Err <==> LastValue(Fields(rest), "realm").None?
  {
    ParameterNames();
    if service.Some? {
      ReadsParameter(',', "scope", Some(kept), rest);
      FusedRest("service", service.value, Parameter(',', "scope", Some(kept), rest));
      LastOfAppend([Field("scope", kept)], Fields(rest), "realm");
    } else {
      FusedRest("scope", kept, rest);
    }
  }

  /** The fused first name is nobody's, so a realm can only come later. */
  lemma FusedRest(name: string, value: string, rest: string)
    requires IsName(name) && '"' !in value
    ensures Assembled(Fields("Bearer" + Parameter(',', name, Some(value), rest)), None, None) == Err <==>
            LastValue(Fields(rest), "realm").None?
  {
    ParameterNames();
    ReadsFused("Bearer", name, value, rest);
    FusedName("Bearer", name);
    var first := Field("Bearer" + [','] + name, value);
    LastOfAppend([first], Fields(rest), "realm");
    AssembledMeaning([first] + Fields(rest), None, None);
  }
}
