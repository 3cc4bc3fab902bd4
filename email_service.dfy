/** The sending rules of services/email_service.py: where the Microsoft
    Graph settings come from, how a stored or passed flag is read as a
    boolean, how the SMTP port and the TLS and SSL flags are normalised, and
    which attachments and MIME types a message carries. Files and the process
    environment are values passed in and returned. */
module EmailService {
  import opened Common
  import opened Text

  /** The scalar values a JSON file or a caller can hand over. */
  datatype PyValue = PyNone | PyBool(b: bool) | PyInt(i: int) | PyStr(s: string)

  /** `bool(value)` */
  predicate Truthy(v: PyValue) {
    match v
    case PyNone => false
    case PyBool(b) => b
    case PyInt(i) => i != 0
    case PyStr(s) => s != ""
  }

  /** `str(value)` */
  function PyStrOf(v: PyValue): string {
    match v
    case PyNone => "None"
    case PyBool(b) => if b then "True" else "False"
    case PyInt(i) => if i < 0 then "-" + NatToString(-i) else NatToString(i)
    case PyStr(s) => s
  }


  // ------------------------------------------------------------ _coerce_bool

  const TrueWords: set<string> := {"1", "true", "t", "yes", "sim", "on"}
  const FalseWords: set<string> := {"0", "false", "f", "no", "nao", "off"}

  /** No word reads both ways. */
  lemma WordsDisjoint()
    ensures forall w | w in FalseWords :: w !in TrueWords
  {
  }

  /** `_coerce_bool(value, default)` of `send_email`. */
  function CoerceBool(v: PyValue, default: bool): (r: bool)
    ensures v.PyNone? ==> r == default
    ensures v.PyStr? && Lower(Strip(v.s)) in TrueWords ==> r
    ensures v.PyStr? && Lower(Strip(v.s)) in FalseWords ==> !r
    ensures !v.PyNone? && !(v.PyStr? && Lower(Strip(v.s)) in TrueWords + FalseWords) ==> r == Truthy(v)
  {
    match v
    case PyNone => default
    case PyStr(s) =>
      WordsDisjoint();
      var normalized := Lower(Strip(s));
      if normalized in TrueWords then true
      else if normalized in FalseWords then false
      else s != ""
    case _ => Truthy(v)
  }

  /** A flag written out with `str()` and read back keeps its value, and so
      does `str()` of 0 and 1; a blank string is not a false word, so it
      reads as true. */
  lemma CoerceBoolRoundTrip(b: bool, default: bool)
    ensures CoerceBool(PyStr(PyStrOf(PyBool(b))), default) == b
    ensures CoerceBool(PyStr(PyStrOf(PyInt(if b then 1 else 0))), default) == b
    ensures CoerceBool(PyStr(" "), default)
  {
    if b {
      TrueTextsRead(default);
    } else {
      FalseTextsRead(default);
    }
    BlankReadsTrue(" ", default);
  }

  lemma TrueTextsRead(default: bool)
    ensures CoerceBool(PyStr("True"), default) && CoerceBool(PyStr("1"), default)
  {
    ReadsAs("True", "true", default);
    ReadsAs("1", "1", default);
  }

  lemma FalseTextsRead(default: bool)
    ensures !CoerceBool(PyStr("False"), default) && !CoerceBool(PyStr("0"), default)
  {
    ReadsAs("False", "false", default);
    ReadsAs("0", "0", default);
  }

  /** A trimmed word whose lower case is one of the words reads as it. */
  lemma ReadsAs(s: string, w: string, default: bool)
    requires Trimmed(s) && Lower(s) == w && w in TrueWords + FalseWords
    ensures CoerceBool(PyStr(s), default) == (w in TrueWords)
  {
    WordsDisjoint();
  }

  lemma BlankReadsTrue(s: string, default: bool)
    requires s != "" && AllSpace(s)
    ensures CoerceBool(PyStr(s), default)
  {
    assert Strip(s) == "";
    assert Lower("") == "";
  }

  // ---------------------------------------------------------- graph settings

  /** The stored or resolved Microsoft Graph OAuth2 settings. */
  datatype GraphConfig = GraphConfig(tenantId: string, clientId: string, clientSecret: string, sender: string)

  /** The settings in the order `save_graph_config` walks them. */
  function Values(c: GraphConfig): (vs: seq<string>)
    ensures |vs| == 4
  {
    [c.tenantId, c.clientId, c.clientSecret, c.sender]
  }

  /** The keys of graph_config.json, in that order. */
  const StoredKeys: seq<string> := ["tenant_id", "client_id", "client_secret", "sender"]

  /** The environment variables, in that order. */
  const EnvKeys: seq<string> := ["M365_TENANT_ID", "M365_CLIENT_ID", "M365_CLIENT_SECRET", "M365_SENDER"]

  predicate Distinct(keys: seq<string>) {
    forall i, j | 0 <= i < j < |keys| :: keys[i] != keys[j]
  }

  lemma KeysDistinct()
    ensures |StoredKeys| == |EnvKeys| == 4
    ensures Distinct(StoredKeys) && Distinct(EnvKeys)
  {
    forall i, j | 0 <= i < j < 4
      ensures StoredKeys[i] != StoredKeys[j] && EnvKeys[i] != EnvKeys[j]
    {
      assert StoredKeys[i][0] != StoredKeys[j][0] || |StoredKeys[i]| != |StoredKeys[j]|;
      assert EnvKeys[i][5] != EnvKeys[j][5] || |EnvKeys[i]| != |EnvKeys[j]|;
    }
  }

  /** `str(d.get(key) or "").strip()` */
  function CleanField(d: map<string, PyValue>, key: string): (r: string)
    ensures Trimmed(r)
    ensures key !in d ==> r == ""
    ensures key in d && d[key].PyStr? ==> r == Strip(d[key].s)
  {
    if key in d && Truthy(d[key]) then Strip(PyStrOf(d[key])) else ""
  }

  /** The payload `load_graph_config` and `save_graph_config` build: the
      four settings, cleaned. */
  function Cleaned(d: map<string, PyValue>): (c: GraphConfig)
    ensures forall i | 0 <= i < 4 :: Trimmed(Values(c)[i])
  {
    GraphConfig(CleanField(d, "tenant_id"), CleanField(d, "client_id"),
                CleanField(d, "client_secret"), CleanField(d, "sender"))
  }

  /** `load_graph_config()`: a missing, unreadable or non-object file counts
      as an empty object. */
  function LoadGraphConfig(doc: JsonDoc<PyValue>): (c: GraphConfig)
    ensures forall i | 0 <= i < 4 :: Trimmed(Values(c)[i])
    ensures !doc.ADict? ==> c == GraphConfig("", "", "", "")
  {
    if doc.ADict? then Cleaned(doc.entries) else Cleaned(map[])
  }

  /** `os.getenv(key)` */
  function EnvGet(env: map<string, string>, key: string): Option<string> {
    if key in env then Some(env[key]) else None
  }

  /** The variable is unset or empty, so `os.getenv(key) or ...` moves on. */
  predicate Unset(env: map<string, string>, key: string) {
    key !in env || env[key] == ""
  }

  /** `a or b` for an optional string: `a` unless it is missing or empty. */
  function OrElse(a: Option<string>, b: string): string {
    if a.Some? && a.value != "" then a.value else b
  }

  /** One setting as `_graph_settings` resolves it: the environment variable,
      else the stored value, else the hint, stripped. */
  function Resolve(env: map<string, string>, envKey: string, stored: string, hint: Option<string>): (r: string)
    ensures Trimmed(r)
  {
    Strip(OrElse(EnvGet(env, envKey), OrElse(Some(stored), OrElse(hint, ""))))
  }

  /** A set, non-empty environment variable wins, even when it is blank and
      so empties the setting; the stored value comes next, then the hint. */
  lemma ResolvePrecedence(env: map<string, string>, envKey: string, stored: string, hint: Option<string>)
    ensures !Unset(env, envKey) ==> Resolve(env, envKey, stored, hint) == Strip(env[envKey])
    ensures Unset(env, envKey) && stored != "" ==> Resolve(env, envKey, stored, hint) == Strip(stored)
    ensures Unset(env, envKey) && stored == "" ==>
      Resolve(env, envKey, stored, hint) == if hint.Some? then Strip(hint.value) else ""
  {
    var raw := OrElse(EnvGet(env, envKey), OrElse(Some(stored), OrElse(hint, "")));
    if !Unset(env, envKey) {
      assert raw == env[envKey];
    } else if stored != "" {
      assert raw == stored;
    } else if hint.None? {
      assert raw == "";
    }
  }

  /** Settings Graph can be used with: all four present and stripped. */
  predicate Usable(c: GraphConfig) {
    && c.tenantId != "" && Trimmed(c.tenantId)
    && c.clientId != "" && Trimmed(c.clientId)
    && c.clientSecret != "" && Trimmed(c.clientSecret)
    && c.sender != "" && Trimmed(c.sender)
  }

  /** `_graph_settings(sender_hint)`: the four settings when none of them
      resolves to empty; only the sender falls back to the hint. */
  function GraphSettings(env: map<string, string>, stored: GraphConfig, senderHint: Option<string>): (r: Option<GraphConfig>)
    ensures var t, c, s, n :=
        Resolve(env, EnvKeys[0], stored.tenantId, None), Resolve(env, EnvKeys[1], stored.clientId, None),
        Resolve(env, EnvKeys[2], stored.clientSecret, None), Resolve(env, EnvKeys[3], stored.sender, senderHint);
      && (r.Some? <==> t != "" && c != "" && s != "" && n != "")
      && (r.Some? ==> r.value == GraphConfig(t, c, s, n))
    ensures r.Some? ==> Usable(r.value)
  {
    var tenant := Resolve(env, EnvKeys[0], stored.tenantId, None);
    var client := Resolve(env, EnvKeys[1], stored.clientId, None);
    var secret := Resolve(env, EnvKeys[2], stored.clientSecret, None);
    var sender := Resolve(env, EnvKeys[3], stored.sender, senderHint);
    if tenant == "" || client == "" || secret == "" || sender == "" then None
    else
      Some(GraphConfig(tenant, client, secret, sender))
  }

  /** A tenant variable that is set but blank disables Graph, whatever is
      stored. */
  lemma BlankTenantDisablesGraph(env: map<string, string>, stored: GraphConfig, hint: Option<string>)
    requires EnvKeys[0] in env && env[EnvKeys[0]] != "" && AllSpace(env[EnvKeys[0]])
    ensures GraphSettings(env, stored, hint) == None
  {
    ResolvePrecedence(env, EnvKeys[0], stored.tenantId, None);
  }

  /** With the four variables unset, four stored settings are used as they
      are and the hint is ignored. */
  lemma StoredSettingsUsed(env: map<string, string>, stored: GraphConfig, hint: Option<string>)
    requires forall i | 0 <= i < 4 :: Unset(env, EnvKeys[i])
    requires forall i | 0 <= i < 4 :: Values(stored)[i] != "" && Trimmed(Values(stored)[i])
    ensures GraphSettings(env, stored, hint) == Some(stored)
  {
    assert Values(stored)[0] == stored.tenantId && Values(stored)[1] == stored.clientId;
    assert Values(stored)[2] == stored.clientSecret && Values(stored)[3] == stored.sender;
    ResolvePrecedence(env, EnvKeys[0], stored.tenantId, None);
    ResolvePrecedence(env, EnvKeys[1], stored.clientId, None);
    ResolvePrecedence(env, EnvKeys[2], stored.clientSecret, None);
    ResolvePrecedence(env, EnvKeys[3], stored.sender, hint);
  }

  /** With the variables unset and no stored sender, the sender is the hint
      (the mailbox the message is sent from). */
  lemma SenderFromHint(env: map<string, string>, stored: GraphConfig, hint: string)
    requires forall i | 0 <= i < 4 :: Unset(env, EnvKeys[i])
    requires stored.tenantId != "" && Trimmed(stored.tenantId) && stored.clientId != "" && Trimmed(stored.clientId)
    requires stored.clientSecret != "" && Trimmed(stored.clientSecret)
    requires stored.sender == "" && hint != "" && Trimmed(hint)
    ensures GraphSettings(env, stored, Some(hint)) == Some(stored.(sender := hint))
  {
    ResolvePrecedence(env, EnvKeys[0], stored.tenantId, None);
    ResolvePrecedence(env, EnvKeys[1], stored.clientId, None);
    ResolvePrecedence(env, EnvKeys[2], stored.clientSecret, None);
    HintResolves(env, EnvKeys[3], stored.sender, hint);
  }

  lemma HintResolves(env: map<string, string>, envKey: string, stored: string, hint: string)
    requires Unset(env, envKey) && stored == "" && Trimmed(hint)
    ensures Resolve(env, envKey, stored, Some(hint)) == hint
  {
    ResolvePrecedence(env, envKey, stored, Some(hint));
  }

  /** What `save_graph_config` leaves behind: the file and the environment. */
  datatype Saved = Saved(file: JsonDoc<PyValue>, env: map<string, string>)

  /** `{k: v for k, v in payload.items() if v}` */
  function NonEmptyEntries(keys: seq<string>, values: seq<string>): map<string, PyValue>
    requires |keys| == |values|
  {
    if keys == [] then map[]
    else
      var entries := NonEmptyEntries(keys[..|keys| - 1], values[..|values| - 1]);
      if values[|values| - 1] != "" then entries[keys[|keys| - 1] := PyStr(values[|values| - 1])] else entries
  }

  /** With distinct keys, a key is written exactly when its value is
      non-empty, and then with that value; nothing else is written. */
  lemma {:induction false} NonEmptyEntriesLookup(keys: seq<string>, values: seq<string>)
    requires |keys| == |values| && Distinct(keys)
    ensures var m := NonEmptyEntries(keys, values);
      && (forall i | 0 <= i < |keys| :: (keys[i] in m <==> values[i] != "") && (values[i] != "" ==> m[keys[i]] == PyStr(values[i])))
      && (forall k | k in m :: k in keys)
  {
    if keys != [] {
      var n := |keys| - 1;
      var before := NonEmptyEntries(keys[..n], values[..n]);
      var m := NonEmptyEntries(keys, values);
      assert forall i | 0 <= i < n :: keys[..n][i] == keys[i] && values[..n][i] == values[i];
      NonEmptyEntriesLookup(keys[..n], values[..n]);
      forall i | 0 <= i < |keys|
        ensures (keys[i] in m <==> values[i] != "") && (values[i] != "" ==> m[keys[i]] == PyStr(values[i]))
      {
        if i < n {
          assert keys[i] != keys[n];
        }
      }
      forall k | k in m ensures k in keys {
        if k != keys[n] {
          assert k in before;
        }
      }
    }
  }

  /** The file `save_graph_config` writes for a cleaned payload: the
      non-empty settings, or no file at all when every setting is empty. */
  function SavedFile(payload: GraphConfig): JsonDoc<PyValue> {
    var entries := NonEmptyEntries(StoredKeys, Values(payload));
    if entries != map[] then ADict(entries) else NoFile
  }

  /** `os.environ[key] = value` when the value is non-empty, otherwise
      `os.environ.pop(key, None)`. */
  function SetOrUnset(env: map<string, string>, key: string, value: string): map<string, string> {
    if value != "" then env[key := value] else env - {key}
  }

  /** The environment after the loop over the given variables and values. */
  function EnvAfter(env: map<string, string>, keys: seq<string>, values: seq<string>): map<string, string>
    requires |keys| == |values|
  {
    if keys == [] then env
    else SetOrUnset(EnvAfter(env, keys[..|keys| - 1], values[..|values| - 1]), keys[|keys| - 1], values[|values| - 1])
  }

  /** With distinct variables, each ends set to its value when that is
      non-empty and unset otherwise; no other variable changes. */
  lemma {:induction false} EnvAfterLookup(env: map<string, string>, keys: seq<string>, values: seq<string>)
    requires |keys| == |values| && Distinct(keys)
    ensures var after := EnvAfter(env, keys, values);
      && (forall i | 0 <= i < |keys| :: EnvGet(after, keys[i]) == if values[i] != "" then Some(values[i]) else None)
      && (forall k | k !in keys :: EnvGet(after, k) == EnvGet(env, k))
  {
    if keys != [] {
      var n := |keys| - 1;
      var before := EnvAfter(env, keys[..n], values[..n]);
      assert forall i | 0 <= i < n :: keys[..n][i] == keys[i] && values[..n][i] == values[i];
      EnvAfterLookup(env, keys[..n], values[..n]);
      forall i | 0 <= i < |keys|
        ensures EnvGet(EnvAfter(env, keys, values), keys[i]) == if values[i] != "" then Some(values[i]) else None
      {
        SetOrUnsetGet(before, keys[n], values[n], keys[i]);
      }
      forall k | k !in keys ensures EnvGet(EnvAfter(env, keys, values), k) == EnvGet(env, k) {
        assert k !in keys[..n];
        SetOrUnsetGet(before, keys[n], values[n], k);
      }
    }
  }

  lemma SetOrUnsetGet(env: map<string, string>, key: string, value: string, k: string)
    ensures EnvGet(SetOrUnset(env, key, value), k) ==
      if k != key then EnvGet(env, k) else if value != "" then Some(value) else None
  {
  }

  /** One more pass of the loop sets or unsets the next variable. */
  lemma EnvAfterStep(env: map<string, string>, keys: seq<string>, values: seq<string>, i: nat)
    requires |keys| == |values| && i < |keys|
    ensures EnvAfter(env, keys[..i + 1], values[..i + 1]) == SetOrUnset(EnvAfter(env, keys[..i], values[..i]), keys[i], values[i])
  {
    assert keys[..i + 1][..i] == keys[..i] && values[..i + 1][..i] == values[..i];
  }

  /** `save_graph_config(config)`: cleans the four settings, writes the
      non-empty ones to the file (or deletes it when none is left) and sets or
      unsets the four environment variables to match. */
  method SaveGraphConfig(config: map<string, PyValue>, env: map<string, string>) returns (saved: Saved)
    ensures saved.file == SavedFile(Cleaned(config))
    ensures saved.env == EnvAfter(env, EnvKeys, Values(Cleaned(config)))
  {
    var payload := Cleaned(config);
    var values := Values(payload);
    var file := SavedFile(payload);
    var environ := env;
    for i := 0 to 4
      invariant environ == EnvAfter(env, EnvKeys[..i], values[..i])
    {
      EnvAfterStep(env, EnvKeys, values, i);
      var envKey := EnvKeys[i];
      if values[i] != "" {
        environ := environ[envKey := values[i]];
      } else if envKey in environ {
        environ := environ - {envKey};
      } else {
        assert environ - {envKey} == environ;
      }
    }
    assert EnvKeys[..4] == EnvKeys && values[..4] == values;
    saved := Saved(file, environ);
  }

  /** Each of the four variables ends set to its cleaned value when that is
      non-empty and unset otherwise; every other variable is untouched. */
  lemma EnvAfterSave(env: map<string, string>, payload: GraphConfig)
    ensures var after := EnvAfter(env, EnvKeys, Values(payload));
      && (forall i | 0 <= i < 4 :: EnvGet(after, EnvKeys[i]) == if Values(payload)[i] != "" then Some(Values(payload)[i]) else None)
      && (forall k | k !in EnvKeys :: EnvGet(after, k) == EnvGet(env, k))
  {
    KeysDistinct();
    EnvAfterLookup(env, EnvKeys, Values(payload));
  }

  /** A stored value that was written non-empty and trimmed reads back as
      itself, and one that was left out reads back empty. */
  lemma CleanFieldOfSaved(m: map<string, PyValue>, key: string, value: string)
    requires key in m <==> value != ""
    requires value != "" ==> m[key] == PyStr(value)
    requires Trimmed(value)
    ensures CleanField(m, key) == value
  {
  }

  /** Loading what was saved gives the cleaned payload back. */
  lemma SaveThenLoad(payload: GraphConfig)
    requires forall i | 0 <= i < 4 :: Trimmed(Values(payload)[i])
    ensures LoadGraphConfig(SavedFile(payload)) == payload
  {
    var vs := Values(payload);
    var m := NonEmptyEntries(StoredKeys, vs);
    KeysDistinct();
    NonEmptyEntriesLookup(StoredKeys, vs);
    CleanFieldOfSaved(m, StoredKeys[0], vs[0]);
    CleanFieldOfSaved(m, StoredKeys[1], vs[1]);
    CleanFieldOfSaved(m, StoredKeys[2], vs[2]);
    CleanFieldOfSaved(m, StoredKeys[3], vs[3]);
    if m == map[] {
      assert forall i | 0 <= i < 4 :: vs[i] == "" by {
        forall i | 0 <= i < 4 ensures vs[i] == "" {
          assert StoredKeys[i] !in m;
        }
      }
      assert CleanField(map[], StoredKeys[0]) == "" && CleanField(map[], StoredKeys[1]) == "";
      assert CleanField(map[], StoredKeys[2]) == "" && CleanField(map[], StoredKeys[3]) == "";
    }
  }

  /** After saving four non-empty settings, the Graph settings read from the
      new environment and the new file are exactly those, whatever the hint. */
  lemma SaveThenGraphSettings(payload: GraphConfig, env: map<string, string>, hint: Option<string>)
    requires forall i | 0 <= i < 4 :: Values(payload)[i] != "" && Trimmed(Values(payload)[i])
    ensures GraphSettings(EnvAfter(env, EnvKeys, Values(payload)), LoadGraphConfig(SavedFile(payload)), hint) == Some(payload)
  {
    var after := EnvAfter(env, EnvKeys, Values(payload));
    SaveThenLoad(payload);
    EnvAfterSave(env, payload);
    var vs := Values(payload);
    assert forall i | 0 <= i < 4 :: EnvGet(after, EnvKeys[i]) == Some(vs[i]);
    ResolvePrecedence(after, EnvKeys[0], payload.tenantId, None);
    ResolvePrecedence(after, EnvKeys[1], payload.clientId, None);
    ResolvePrecedence(after, EnvKeys[2], payload.clientSecret, None);
    ResolvePrecedence(after, EnvKeys[3], payload.sender, hint);
  }

  // ------------------------------------------------------------ email layout

  /** `DEFAULT_EMAIL_LAYOUT` */
  const DefaultEmailLayout: map<string, map<string, string>> := map[
    "cotacao_cliente" := map[
      "subject" := "Quotation {numero_cotacao}{referencia_cliente_sufixo}",
      "body" :=
        "Dear {nome_cliente},\n\n"
        + "Please find attached our offer No {numero_cotacao}.\n\n"
        + "{observacoes_bloco}"
        + "We remain at your disposal for any further clarification.\n\n"
        + "Best regards,\n"
        + "{nome_utilizador}"],
    "pedido_fornecedor" := map[
      "subject" := "Request for Quotation \U{2013} {referencia_interna}",
      "body" :=
        "Request for Quotation \U{2013} {referencia_interna}\n\n"
        + "Dear {fornecedor_nome} Team,\n\n"
        + "Please find attached our Request for Quotation (RFQ) for internal process {processo_texto} "
        + "(Reference: {referencia_texto}).\n\n"
        + "Kindly provide us with the following details:\n"
        + "- Unit price\n"
        + "- Delivery time\n"
        + "- HS Code\n"
        + "- Country of origin\n"
        + "- Weight\n\n"
        + "{detalhes_extra_bloco}"
        + "We look forward to receiving your quotation.\n"
        + "Thank you in advance for your prompt response.\n\n"
        + "{nome_utilizador}"]]

  /** A value of the layout file under one kind of e-mail. */
  datatype LayoutValue = LayoutDict(fields: map<string, PyValue>) | LayoutOther

  /** The string-valued entries of a stored layout. */
  function StringEntries(fields: map<string, PyValue>): map<string, string> {
    map k | k in fields && fields[k].PyStr? :: fields[k].s
  }

  /** `load_email_layout(tipo)`: the default layout of the kind, overridden
      by every string value stored for it. */
  function LoadEmailLayout(tipo: string, doc: JsonDoc<LayoutValue>): (r: map<string, string>)
    ensures var defaults := if tipo in DefaultEmailLayout then DefaultEmailLayout[tipo] else map[];
      var stored := if doc.ADict? && tipo in doc.entries && doc.entries[tipo].LayoutDict? then doc.entries[tipo].fields else map[];
      && (forall k :: k in r <==> k in defaults || (k in stored && stored[k].PyStr?))
      && (forall k | k in stored && stored[k].PyStr? :: r[k] == stored[k].s)
      && (forall k | k in defaults && !(k in stored && stored[k].PyStr?) :: r[k] == defaults[k])
  {
    var defaults := if tipo in DefaultEmailLayout then DefaultEmailLayout[tipo] else map[];
    var data := if doc.ADict? then doc.entries else map[];
    var stored := if tipo in data then data[tipo] else LayoutDict(map[]);
    if stored.LayoutDict? then defaults + StringEntries(stored.fields) else defaults
  }

  /** Without a usable layout file both kinds of e-mail get their default
      subject and body. */
  lemma DefaultLayouts(tipo: string, doc: JsonDoc<LayoutValue>)
    requires tipo in {"cotacao_cliente", "pedido_fornecedor"}
    requires !doc.ADict?
    ensures var layout := LoadEmailLayout(tipo, doc);
      "subject" in layout && "body" in layout && layout == DefaultEmailLayout[tipo]
  {
  }

  // --------------------------------------------------------------- transport

  /** The connection parameters handed to `get_smtp_connection`. */
  datatype Transport = Transport(host: string, port: int, tls: bool, ssl: bool)

  /** `get_system_email_config()` after its defaults are applied. */
  datatype SmtpConfig = SmtpConfig(server: string, port: int, useTls: bool, useSsl: bool)

  /** `any(key in host.lower() for key in ("outlook", "office365", "office"))` */
  predicate IsOutlook(host: string) {
    var h := Lower(host);
    Contains(h, "outlook") || Contains(h, "office365") || Contains(h, "office")
  }

  /** The outcome of the normalisation, case by case: an Outlook host not on
      587 is moved to STARTTLS on 587; port 587 means STARTTLS unless the
      caller passed `use_tls`, whose value then holds; port 465 means SSL;
      on any other port the flags stay, save that TLS wins when both are on. */
  function SecureTransport(host: string, port: int, tls: bool, ssl: bool, tlsGiven: bool): (t: Transport)
    ensures !(t.tls && t.ssl)
    ensures t.host == host
  {
    if IsOutlook(host) && port != 587 then Transport(host, 587, true, false)
    else if port == 587 then Transport(host, 587, if tlsGiven then tls else true, false)
    else if port == 465 then Transport(host, 465, false, true)
    else Transport(host, port, tls, ssl && !tls)
  }

  /** The normalisation of `send_email`, step by step as the source does it. */
  method NormalizeTransport(host: string, port: int, tls: bool, ssl: bool, tlsGiven: bool) returns (t: Transport)
    ensures t == SecureTransport(host, port, tls, ssl, tlsGiven)
  {
    var serverPort, tlsFlag, sslFlag := port, tls, ssl;
    if serverPort == 587 {
      sslFlag := false;
      tlsFlag := if !tlsGiven then true else tlsFlag;
    } else if serverPort == 465 {
      sslFlag := true;
      tlsFlag := false;
    }
    if sslFlag && tlsFlag {
      if serverPort == 465 {
        tlsFlag := false;
      } else {
        sslFlag := false;
      }
    }
    if IsOutlook(host) && serverPort != 587 {
      serverPort := 587;
      sslFlag := false;
      tlsFlag := true;
    }
    t := Transport(host, serverPort, tlsFlag, sslFlag);
  }

  /** An Outlook or Office 365 host always ends on port 587 without SSL, and
      with STARTTLS unless it was already on 587 and the caller turned TLS off;
      other hosts on 587 and 465 get STARTTLS and SSL respectively, and keep
      their port. */
  lemma TransportRules(host: string, port: int, tls: bool, ssl: bool, tlsGiven: bool)
    ensures var t := SecureTransport(host, port, tls, ssl, tlsGiven);
      && (IsOutlook(host) ==> t.port == 587 && !t.ssl && (t.tls || (port == 587 && tlsGiven && !tls)))
      && (!IsOutlook(host) ==> t.port == port)
      && (!IsOutlook(host) && port == 587 ==> !t.ssl && t.tls == (!tlsGiven || tls))
      && (!IsOutlook(host) && port == 465 ==> t.ssl && !t.tls)
  {
  }

  /** "office365" contains "office": the Outlook test is "outlook" or
      "office" in the lower-cased host. */
  lemma OutlookHosts(host: string)
    ensures IsOutlook(host) <==> Contains(Lower(host), "outlook") || Contains(Lower(host), "office")
  {
    var h := Lower(host);
    if Contains(h, "office365") {
      var i :| 0 <= i <= |h| - 9 && OccursAt(h, "office365", i);
      assert h[i..i + 6] == h[i..i + 9][..6];
      assert OccursAt(h, "office", i);
    }
  }

  // ------------------------------------------------------------- attachments

  /** An attachment as `(filename, data, mime type or None)`. */
  datatype Attachment = Attachment(filename: string, data: seq<byte>, mime: Option<string>)

  /** The list `send_email` sends, as one expression. */
  function Attachments(pdfBytes: Option<seq<byte>>, pdfFilename: string, attachments: Option<seq<Attachment>>): seq<Attachment> {
    (if pdfBytes.Some? && pdfBytes.value != [] then [Attachment(pdfFilename, pdfBytes.value, Some("application/pdf"))] else [])
      + attachments.GetOr([])
  }

  /** The PDF comes first, only when it has bytes, typed `application/pdf`;
      the extra attachments follow in their order. */
  lemma AttachmentsOrder(pdfBytes: Option<seq<byte>>, pdfFilename: string, attachments: Option<seq<Attachment>>)
    ensures var anexos := Attachments(pdfBytes, pdfFilename, attachments);
      var extras := attachments.GetOr([]);
      var offset := if pdfBytes.Some? && pdfBytes.value != [] then 1 else 0;
      && |anexos| == offset + |extras|
      && (offset == 1 ==> anexos[0] == Attachment(pdfFilename, pdfBytes.value, Some("application/pdf")))
      && (forall i | 0 <= i < |extras| :: anexos[offset + i] == extras[i])
  {
    var extras := attachments.GetOr([]);
    if pdfBytes.Some? && pdfBytes.value != [] {
      var pdf := Attachment(pdfFilename, pdfBytes.value, Some("application/pdf"));
      assert Attachments(pdfBytes, pdfFilename, attachments) == [pdf] + extras;
    } else {
      assert Attachments(pdfBytes, pdfFilename, attachments) == extras;
    }
  }

  /** The list `send_email` builds with `append` and `extend`: the PDF when
      there are bytes, typed `application/pdf`, then the extra attachments in
      their order. */
  method BuildAttachments(pdfBytes: Option<seq<byte>>, pdfFilename: string, attachments: Option<seq<Attachment>>)
    returns (anexos: seq<Attachment>)
    ensures anexos == Attachments(pdfBytes, pdfFilename, attachments)
    ensures var extras := attachments.GetOr([]);
      var offset := if pdfBytes.Some? && pdfBytes.value != [] then 1 else 0;
      && |anexos| == offset + |extras|
      && (offset == 1 ==> anexos[0] == Attachment(pdfFilename, pdfBytes.value, Some("application/pdf")))
      && (forall i | 0 <= i < |extras| :: anexos[offset + i] == extras[i])
  {
    anexos := [];
    if pdfBytes.Some? && pdfBytes.value != [] {
      anexos := anexos + [Attachment(pdfFilename, pdfBytes.value, Some("application/pdf"))];
    }
    if attachments.Some? && attachments.value != [] {
      anexos := anexos + attachments.value;
    }
    AttachmentsOrder(pdfBytes, pdfFilename, attachments);
  }

  /** Index of the first `c` in `s`. */
  function IndexOf(s: string, c: char): (r: Option<nat>)
    ensures r.Some? ==> r.value < |s| && s[r.value] == c && c !in s[..r.value]
    ensures r.None? ==> c !in s
  {
    if s == [] then None
    else if s[0] == c then Some(0)
    else
      var rest := IndexOf(s[1..], c);
      if rest.Some? then
        assert s[..rest.value + 1] == [s[0]] + s[1..][..rest.value];
        Some(rest.value + 1)
      else None
  }

  /** `tipo_mime.split("/", 1)`, with `("application", "octet-stream")` when
      there is no "/": the main type has no "/", and main type, "/" and
      subtype give the type back. */
  function SplitMime(t: string): (r: (string, string))
    ensures '/' in t ==> r.0 + "/" + r.1 == t && '/' !in r.0
    ensures '/' !in t ==> r == ("application", "octet-stream")
  {
    var i := IndexOf(t, '/');
    if i.Some? then
      assert t[..i.value] + "/" + t[i.value + 1..] == t;
      (t[..i.value], t[i.value + 1..])
    else ("application", "octet-stream")
  }

  /** One MIME part of an attachment. */
  datatype MimePart = MimePart(mainType: string, subType: string, filename: string, data: seq<byte>)

  /** The MIME type used for an attachment: its own, else the guess from the
      file name, else `application/octet-stream`. */
  function MimeTypeOf(a: Attachment, guess: string -> Option<string>): string {
    if a.mime.Some? && a.mime.value != "" then a.mime.value
    else
      var g := guess(a.filename);
      if g.Some? && g.value != "" then g.value else "application/octet-stream"
  }

  function PartOf(a: Attachment, guess: string -> Option<string>): MimePart {
    var (main, sub) := SplitMime(MimeTypeOf(a, guess));
    MimePart(main, sub, a.filename, a.data)
  }

  /** The first `n` parts are those of the first `n` attachments. */
  predicate PartsMatch(parts: seq<MimePart>, anexos: seq<Attachment>, guess: string -> Option<string>, n: nat)
    requires n <= |parts| && n <= |anexos|
  {
    forall j | 0 <= j < n :: parts[j] == PartOf(anexos[j], guess)
  }

  lemma PartsMatchSnoc(parts: seq<MimePart>, anexos: seq<Attachment>, guess: string -> Option<string>, part: MimePart)
    requires |parts| < |anexos| && PartsMatch(parts, anexos, guess, |parts|)
    requires part == PartOf(anexos[|parts|], guess)
    ensures PartsMatch(parts + [part], anexos, guess, |parts| + 1)
  {
    var n := |parts|;
    var next := parts + [part];
    forall j | 0 <= j < n + 1 ensures next[j] == PartOf(anexos[j], guess) {
      if j < n {
        assert next[j] == parts[j];
      }
    }
  }

  /** The attachment loop of `send_email`: one part per attachment, in order. */
  method BuildMimeParts(anexos: seq<Attachment>, guess: string -> Option<string>) returns (parts: seq<MimePart>)
    ensures |parts| == |anexos|
    ensures forall i | 0 <= i < |anexos| :: parts[i] == PartOf(anexos[i], guess)
  {
    parts := [];
    for i := 0 to |anexos|
      invariant |parts| == i
      invariant PartsMatch(parts, anexos, guess, i)
    {
      var part := MakePart(anexos[i], guess);
      PartsMatchSnoc(parts, anexos, guess, part);
      parts := parts + [part];
    }
  }

  /** One turn of that loop: the type given, else guessed, else
      `application/octet-stream`, split at its first "/". */
  method MakePart(a: Attachment, guess: string -> Option<string>) returns (part: MimePart)
    ensures part == PartOf(a, guess)
  {
    var tipoMime := if a.mime.Some? && a.mime.value != "" then a.mime.value
      else if guess(a.filename).Some? && guess(a.filename).value != "" then guess(a.filename).value
      else "application/octet-stream";
    var (main, sub) := SplitMime(tipoMime);
    part := MimePart(main, sub, a.filename, a.data);
  }

  /** A part's main type and subtype joined by "/" give the attachment's
      MIME type when it has a "/", and a type without one is sent as
      `application/octet-stream`. */
  lemma PartTypes(a: Attachment, guess: string -> Option<string>)
    ensures var p := PartOf(a, guess);
      var t := MimeTypeOf(a, guess);
      && ('/' in t ==> p.mainType + "/" + p.subType == t)
      && ('/' !in t ==> p.mainType == "application" && p.subType == "octet-stream")
      && p.filename == a.filename && p.data == a.data
  {
  }

  // -------------------------------------------------------------- send_email

  /** What `send_email` does: sends through Graph, connects to SMTP and sends
      the message, or raises for missing credentials. */
  datatype Delivery =
    | ViaGraph(config: GraphConfig, to: string, subject: string, body: string, attachments: seq<Attachment>)
    | ViaSmtp(transport: Transport, from: string, to: string, subject: string, body: string, parts: seq<MimePart>)
    | MissingCredentials

  /** The SMTP flags before normalisation: the caller's, else the stored. */
  function TlsFlag(useTls: PyValue, config: SmtpConfig): bool {
    CoerceBool(if useTls.PyNone? then PyBool(config.useTls) else useTls, true)
  }

  function SslFlag(useSsl: PyValue, config: SmtpConfig): bool {
    CoerceBool(if useSsl.PyNone? then PyBool(config.useSsl) else useSsl, false)
  }

  /** `send_email`: with Graph settings for the sender the message goes
      through Graph and no SMTP credential is looked at; otherwise an empty
      user or password raises before any connection; otherwise the transport
      is normalised and every attachment becomes a MIME part. Both paths send
      the subject, the body and the attachment list unchanged. */
  method SendEmail(destino: Option<string>, assunto: string, corpo: string,
                   pdfBytes: Option<seq<byte>>, pdfFilename: string,
                   smtpServer: Option<string>, smtpPort: Option<int>,
                   emailUser: Option<string>, emailPassword: Option<string>,
                   useTls: PyValue, useSsl: PyValue, attachments: Option<seq<Attachment>>,
                   env: map<string, string>, graphFile: JsonDoc<PyValue>, system: SmtpConfig,
                   guess: string -> Option<string>)
    returns (delivery: Delivery)
    ensures var user := Strip(emailUser.GetOr(""));
      var password := Strip(emailPassword.GetOr(""));
      var graph := GraphSettings(env, LoadGraphConfig(graphFile), Some(user));
      && (graph.Some? ==> delivery.ViaGraph? && delivery.config == graph.value && delivery.config.sender != "")
      && (graph.None? && (user == "" || password == "") ==> delivery == MissingCredentials)
      && (graph.None? && user != "" && password != "" ==>
            var host := Strip(if smtpServer.Some? && smtpServer.value != "" then smtpServer.value else system.server);
            var port := if smtpPort.Some? && smtpPort.value != 0 then smtpPort.value else system.port;
            && delivery.ViaSmtp?
            && delivery.transport == SecureTransport(host, port, TlsFlag(useTls, system), SslFlag(useSsl, system), !useTls.PyNone?)
            && delivery.from == user
            && |delivery.parts| == (if pdfBytes.Some? && pdfBytes.value != [] then 1 else 0) + |attachments.GetOr([])|)
      && ((delivery.ViaGraph? || delivery.ViaSmtp?) ==> delivery.to == Strip(destino.GetOr("")))
    ensures var anexos := Attachments(pdfBytes, pdfFilename, attachments);
      && (delivery.ViaGraph? ==> delivery.attachments == anexos)
      && (delivery.ViaSmtp? ==>
            |delivery.parts| == |anexos| && forall i | 0 <= i < |anexos| :: delivery.parts[i] == PartOf(anexos[i], guess))
      && ((delivery.ViaGraph? || delivery.ViaSmtp?) ==> delivery.subject == assunto && delivery.body == corpo)
  {
    var user := Strip(emailUser.GetOr(""));
    var password := Strip(emailPassword.GetOr(""));
    var to := Strip(destino.GetOr(""));
    var anexos := BuildAttachments(pdfBytes, pdfFilename, attachments);
    var graph := GraphSettings(env, LoadGraphConfig(graphFile), Some(user));
    if graph.Some? {
      return ViaGraph(graph.value, to, assunto, corpo, anexos);
    }
    if user == "" || password == "" {
      return MissingCredentials;
    }
    var host := Strip(if smtpServer.Some? && smtpServer.value != "" then smtpServer.value else system.server);
    var port := if smtpPort.Some? && smtpPort.value != 0 then smtpPort.value else system.port;
    var transport := NormalizeTransport(host, port, TlsFlag(useTls, system), SslFlag(useSsl, system), !useTls.PyNone?);
    var parts := BuildMimeParts(anexos, guess);
    delivery := ViaSmtp(transport, user, to, assunto, corpo, parts);
  }
}
