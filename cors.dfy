/** The origin policy of the JavaScript relay: the allow-list read from
    `CORS_ORIGINS` (comma-separated, each entry trimmed, with a single local
    default) and the predicate the CORS middleware consults per request. */
module Cors {
  import opened JsValues
  import opened JsStrings

  /** The list used when `CORS_ORIGINS` is unset or empty. */
  const DefaultOrigins: string := "http://localhost:3000"

  /** The error the origin callback reports for a refused origin. */
  const NotAllowed: string := "Not allowed by CORS"

  /** `process.env.CORS_ORIGINS || 'http://localhost:3000'`: an unset or empty
      variable falls back to the default, anything else is taken as written. */
  function OriginsSetting(env: Option<string>): (setting: string)
    ensures setting != ""
    ensures env.Some? && env.value != "" ==> setting == env.value
    ensures env.None? || env.value == "" ==> setting == DefaultOrigins
  {
    match env
    case Some(v) => if v != "" then v else DefaultOrigins
    case None => DefaultOrigins
  }

  /** The allow-list: the setting split at commas, each piece trimmed. */
  function AllowedOrigins(env: Option<string>): seq<string> {
    TrimEach(Split(OriginsSetting(env), ','))
  }

  /** `pieces.map(o => o.trim())` */
  function TrimEach(pieces: seq<string>): (trimmed: seq<string>)
    ensures |trimmed| == |pieces|
  {
    seq(|pieces|, k requires 0 <= k < |pieces| => Trim(pieces[k]))
  }

  /** An origin is among the trimmed pieces exactly when it is the trim of one of them. */
  lemma InTrimEach(pieces: seq<string>, origin: string)
    ensures origin in TrimEach(pieces) <==> exists k | 0 <= k < |pieces| :: origin == Trim(pieces[k])
  {
    var trimmed := TrimEach(pieces);
    if origin in trimmed {
      var k :| 0 <= k < |trimmed| && trimmed[k] == origin;
      assert origin == Trim(pieces[k]);
    }
    if exists k | 0 <= k < |pieces| :: origin == Trim(pieces[k]) {
      var k :| 0 <= k < |pieces| && origin == Trim(pieces[k]);
      assert trimmed[k] == origin;
    }
  }

  /** Trimming entries that are already trimmed changes none of them. */
  lemma TrimEachOfTrimmed(pieces: seq<string>)
    requires forall k | 0 <= k < |pieces| :: Trimmed(pieces[k])
    ensures TrimEach(pieces) == pieces
  {
    forall k | 0 <= k < |pieces| ensures TrimEach(pieces)[k] == pieces[k] {
      TrimOfTrimmed(pieces[k]);
    }
  }

  /** The allow-list is never empty, and no entry holds a comma or begins or
      ends with whitespace. */
  lemma AllowedOriginsWellFormed(env: Option<string>)
    ensures |AllowedOrigins(env)| >= 1
    ensures forall k | 0 <= k < |AllowedOrigins(env)| ::
      ',' !in AllowedOrigins(env)[k] && Trimmed(AllowedOrigins(env)[k])
  {
    var pieces := Split(OriginsSetting(env), ',');
    SplitPiecesExcludeSeparator(OriginsSetting(env), ',');
    var allowed := AllowedOrigins(env);
    forall k | 0 <= k < |allowed| ensures ',' !in allowed[k] && Trimmed(allowed[k]) {
      TrimSlice(pieces[k]);
      var i, j :| 0 <= i <= j <= |pieces[k]| && allowed[k] == pieces[k][i..j];
      assert forall c | c in allowed[k] :: c in pieces[k];
    }
  }

  /** `!origin || allowedOrigins.includes(origin)`: a request without an
      `Origin` header, or with an empty one, passes; otherwise the origin must
      equal an entry exactly. */
  predicate OriginAllowed(allowed: seq<string>, origin: Option<string>) {
    origin.None? || origin.value == "" || origin.value in allowed
  }

  /** The origin callback: `cb(null, true)` for an allowed origin, an error
      `Not allowed by CORS` otherwise. */
  function CheckOrigin(allowed: seq<string>, origin: Option<string>): (r: Outcome<bool>)
    ensures r.Ok? <==> origin.None? || origin.value == "" || origin.value in allowed
    ensures r.Ok? ==> r.value
    ensures r.Fail? ==> r.message == NotAllowed
  {
    if OriginAllowed(allowed, origin) then Ok(true) else Fail(NotAllowed)
  }

  /** `origin` is the trim of one of `pieces`. */
  predicate TrimsAPiece(origin: string, pieces: seq<string>) {
    exists k | 0 <= k < |pieces| :: origin == Trim(pieces[k])
  }

  /** The policy in general: a non-empty origin passes exactly when it equals
      the trim of one comma-separated piece of the setting. */
  lemma OriginPolicy(env: Option<string>, origin: string)
    ensures CheckOrigin(AllowedOrigins(env), Some(origin)).Ok? <==>
      origin == "" || TrimsAPiece(origin, Split(OriginsSetting(env), ','))
  {
    PiecesPolicy(AllowedOrigins(env), Split(OriginsSetting(env), ','), origin);
  }

  lemma PiecesPolicy(allowed: seq<string>, pieces: seq<string>, origin: string)
    requires allowed == TrimEach(pieces)
    ensures CheckOrigin(allowed, Some(origin)).Ok? <==> origin == "" || TrimsAPiece(origin, pieces)
  {
    InTrimEach(pieces, origin);
  }

  /** With `CORS_ORIGINS` unset or empty exactly the local development origin
      is allowed (besides requests without an origin). */
  lemma DefaultPolicy(env: Option<string>, origin: string)
    requires env.None? || env.value == ""
    ensures AllowedOrigins(env) == [DefaultOrigins]
    ensures CheckOrigin(AllowedOrigins(env), Some(origin)).Ok? <==> origin == "" || origin == DefaultOrigins
  {
    DefaultList(env);
    OnlyDefaultAllowed(AllowedOrigins(env), origin);
  }

  lemma OnlyDefaultAllowed(allowed: seq<string>, origin: string)
    requires allowed == [DefaultOrigins]
    ensures CheckOrigin(allowed, Some(origin)).Ok? <==> origin == "" || origin == DefaultOrigins
  {
  }

  lemma DefaultList(env: Option<string>)
    requires env.None? || env.value == ""
    ensures AllowedOrigins(env) == [DefaultOrigins]
  {
    var d := DefaultOrigins;
    DefaultOriginsWellFormed();
    assert Join([d], ',') == d;
    SplitJoin([d], ',');
    TrimmedPiecesKept(d);
    SameSettingSameList(env, Some(d));
  }

  lemma SameSettingSameList(env: Option<string>, env': Option<string>)
    requires OriginsSetting(env) == OriginsSetting(env')
    ensures AllowedOrigins(env) == AllowedOrigins(env')
  {
  }

  lemma DefaultOriginsWellFormed()
    ensures ',' !in DefaultOrigins && Trimmed(DefaultOrigins)
  {
    var d := DefaultOrigins;
    forall k | 0 <= k < |d| ensures d[k] != ',' {
    }
    assert d[0] == 'h' && d[|d| - 1] == '0';
  }

  /** A setting whose comma-separated entries carry no surrounding whitespace
      allows exactly those entries, and no other non-empty origin. Written as
      `Join(entries, ',')` for comma-free `entries`, the entries are exactly
      what `Split` gives back (`JsStrings.SplitJoin`). */
  lemma ListedOriginsAllowed(setting: string, origin: string)
    requires setting != ""
    requires forall k | 0 <= k < |Split(setting, ',')| :: Trimmed(Split(setting, ',')[k])
    ensures CheckOrigin(AllowedOrigins(Some(setting)), Some(origin)).Ok?
            <==> origin == "" || origin in Split(setting, ',')
  {
    TrimmedPiecesKept(setting);
  }

  /** When every comma-separated piece of a non-empty setting is already
      trimmed, the allow-list is exactly those pieces. */
  lemma TrimmedPiecesKept(setting: string)
    requires setting != ""
    requires forall k | 0 <= k < |Split(setting, ',')| :: Trimmed(Split(setting, ',')[k])
    ensures AllowedOrigins(Some(setting)) == Split(setting, ',')
  {
    TrimEachOfTrimmed(Split(setting, ','));
  }

  /** A non-empty origin that contains a comma, or has whitespace at either
      end, is refused whatever the setting: no allow-list entry can look like that. */
  lemma MalformedOriginRefused(env: Option<string>, origin: string)
    requires origin != ""
    requires ',' in origin || !Trimmed(origin)
    ensures CheckOrigin(AllowedOrigins(env), Some(origin)) == Fail(NotAllowed)
  {
    AllowedOriginsWellFormed(env);
  }

  /** Spaces around entries in the setting do not matter: `"a, b"` allows `b`. */
  lemma PaddedEntriesTrimmed(env: string, k: nat)
    requires env != ""
    requires k < |Split(env, ',')|
    ensures CheckOrigin(AllowedOrigins(Some(env)), Some(Trim(Split(env, ',')[k]))).Ok?
  {
    assert AllowedOrigins(Some(env))[k] == Trim(Split(env, ',')[k]);
  }
}
