/**
 * The notification settings form of a subscription (src/components/subs/NotifySetting.tsx):
 * the four validation rules of its schema, the mapping from the stored subscription to the
 * form's defaults and from the form back to the saved payload, and the recognition of a
 * pasted webhook URL or bare token.
 */
module NotifySettings {
  import opened Wrappers
  import opened Text

  /** `NotifyChannel` of src/lib/types.ts: "none", "wxwork", "feishu" or "serverchan". */
  datatype Channel = NoChannel | WxWork | Feishu | ServerChan

  /** The notification fields of a stored `Subscription`; a missing token is `None`. */
  datatype Stored = Stored(
    channel: Channel, token: Option<string>, thresholdKwh: real, withinHours: real, cooldownSec: real)

  /** The form's values; `notify_token`, `threshold_kwh` and `within_hours` are optional. */
  datatype FormValues = FormValues(
    channel: Channel, token: Option<string>,
    thresholdEnabled: bool, thresholdKwh: Option<real>,
    withinEnabled: bool, withinHours: Option<real>,
    cooldownSec: real)

  /* ---------------------------------------------------------------------------------------------
   * Token formats.
   * ------------------------------------------------------------------------------------------- */

  predicate IsAsciiAlnum(c: char)
  {
    ('0' <= c <= '9') || ('A' <= c <= 'Z') || ('a' <= c <= 'z')
  }

  predicate IsHex(c: char)
  {
    ('0' <= c <= '9') || ('A' <= c <= 'F') || ('a' <= c <= 'f')
  }

  /** `/^(SCT[0-9A-Za-z]+)$/`: "SCT" in capitals, then one or more ASCII letters or digits. */
  predicate IsSctToken(s: string)
  {
    |s| >= 4 && s[..3] == "SCT" && forall i :: 3 <= i < |s| ==> IsAsciiAlnum(s[i])
  }

  /** The positions of the dashes in an 8-4-4-4-12 identifier. */
  predicate IsUuidDash(i: int)
  {
    i == 8 || i == 13 || i == 18 || i == 23
  }

  /** The 8-4-4-4-12 hex pattern with the `i` flag: hex digits of either case, dashes between the groups. */
  predicate IsUuid(s: string)
  {
    |s| == 36 && forall i :: 0 <= i < |s| ==> if IsUuidDash(i) then s[i] == '-' else IsHex(s[i])
  }

  /* ---------------------------------------------------------------------------------------------
   * The schema's refinements.
   * ------------------------------------------------------------------------------------------- */

  /** `!!data.notify_token`: present and not empty. */
  predicate HasToken(v: FormValues)
  {
    v.token.Some? && v.token.value != ""
  }

  /** First refinement: a channel other than "none" needs a token. */
  predicate TokenPresent(v: FormValues)
  {
    v.channel == NoChannel || HasToken(v)
  }

  /** Second refinement: a token given for a channel has that channel's format. */
  predicate TokenWellFormed(v: FormValues)
  {
    if v.channel == NoChannel || !HasToken(v) then true
    else
      match v.channel
      case ServerChan => IsSctToken(v.token.value)
      case WxWork => IsUuid(v.token.value)
      case Feishu => IsUuid(v.token.value)
      case NoChannel => false
  }

  /** Third refinement: an enabled energy threshold is given and positive. */
  predicate ThresholdRule(v: FormValues)
  {
    !v.thresholdEnabled || (v.thresholdKwh.Some? && v.thresholdKwh.value > 0.0)
  }

  /** Fourth refinement: an enabled time horizon is given and positive. */
  predicate WithinRule(v: FormValues)
  {
    !v.withinEnabled || (v.withinHours.Some? && v.withinHours.value > 0.0)
  }

  /** The message and field of each refinement that fails. */
  datatype Issue = TokenRequired | TokenInvalid | ThresholdNotPositive | WithinNotPositive

  /** The field an issue is reported on. */
  function IssuePath(i: Issue): string
  {
    match i
    case TokenRequired => "notify_token"
    case TokenInvalid => "notify_token"
    case ThresholdNotPositive => "threshold_kwh"
    case WithinNotPositive => "within_hours"
  }

  /**
   * The issues the schema reports, in refinement order; every refinement runs even after an
   * earlier one failed. The form is accepted exactly when all four rules hold, and a missing
   * token is reported once, never also as malformed.
   */
  function Validate(v: FormValues): (issues: seq<Issue>)
    ensures issues == [] <==> TokenPresent(v) && TokenWellFormed(v) && ThresholdRule(v) && WithinRule(v)
    ensures (TokenRequired in issues <==> !TokenPresent(v)) && (TokenInvalid in issues <==> !TokenWellFormed(v))
    ensures (ThresholdNotPositive in issues <==> !ThresholdRule(v)) && (WithinNotPositive in issues <==> !WithinRule(v))
    ensures !(TokenRequired in issues && TokenInvalid in issues)
  {
    (if TokenPresent(v) then [] else [TokenRequired])
    + (if TokenWellFormed(v) then [] else [TokenInvalid])
    + (if ThresholdRule(v) then [] else [ThresholdNotPositive])
    + (if WithinRule(v) then [] else [WithinNotPositive])
  }

  /**
   * Where the errors show: the token field carries one exactly when either token rule fails,
   * and each number field exactly when its own rule fails.
   */
  lemma FieldErrors(v: FormValues)
    ensures (exists i :: i in Validate(v) && IssuePath(i) == "notify_token") <==> !(TokenPresent(v) && TokenWellFormed(v))
    ensures (exists i :: i in Validate(v) && IssuePath(i) == "threshold_kwh") <==> !ThresholdRule(v)
    ensures (exists i :: i in Validate(v) && IssuePath(i) == "within_hours") <==> !WithinRule(v)
  {
    var issues := Validate(v);
    if !TokenPresent(v) {
      assert TokenRequired in issues && IssuePath(TokenRequired) == "notify_token";
    } else if !TokenWellFormed(v) {
      assert TokenInvalid in issues && IssuePath(TokenInvalid) == "notify_token";
    }
    if !ThresholdRule(v) {
      assert ThresholdNotPositive in issues && IssuePath(ThresholdNotPositive) == "threshold_kwh";
    }
    if !WithinRule(v) {
      assert WithinNotPositive in issues && IssuePath(WithinNotPositive) == "within_hours";
    }
  }

  /** What an accepted form guarantees about its token. */
  lemma AcceptedToken(v: FormValues)
    requires Validate(v) == []
    ensures v.channel != NoChannel ==> v.token.Some? && v.token.value != ""
    ensures v.channel == ServerChan ==> IsSctToken(v.token.value)
    ensures v.channel == WxWork || v.channel == Feishu ==> IsUuid(v.token.value)
    ensures v.thresholdEnabled ==> v.thresholdKwh.Some? && v.thresholdKwh.value > 0.0
    ensures v.withinEnabled ==> v.withinHours.Some? && v.withinHours.value > 0.0
  {
  }

  /** With channel "none" the token is not looked at: only the two rules remain. */
  lemma NoChannelIgnoresToken(v: FormValues, token: Option<string>)
    requires v.channel == NoChannel
    ensures Validate(v) == Validate(v.(token := token))
  {
  }

  /* ---------------------------------------------------------------------------------------------
   * Defaults and submission.
   * ------------------------------------------------------------------------------------------- */

  /**
   * The form's `defaultValues`: a rule is enabled exactly when its stored number is positive,
   * and only then carries that number; channel and cooldown are kept and a missing token
   * becomes the empty text. Both number rules hold of the defaults.
   */
  function DefaultValues(s: Stored): (v: FormValues)
    ensures v.thresholdEnabled <==> s.thresholdKwh > 0.0
    ensures v.thresholdEnabled <==> v.thresholdKwh.Some?
    ensures v.thresholdEnabled ==> v.thresholdKwh == Some(s.thresholdKwh)
    ensures v.withinEnabled <==> s.withinHours > 0.0
    ensures v.withinEnabled <==> v.withinHours.Some?
    ensures v.withinEnabled ==> v.withinHours == Some(s.withinHours)
    ensures v.channel == s.channel && v.cooldownSec == s.cooldownSec
    ensures v.token == Some(if s.token.Some? then s.token.value else "")
    ensures ThresholdRule(v) && WithinRule(v)
  {
    FormValues(
      s.channel, Some(if s.token.Some? then s.token.value else ""),
      s.thresholdKwh > 0.0, if s.thresholdKwh > 0.0 then Some(s.thresholdKwh) else None,
      s.withinHours > 0.0, if s.withinHours > 0.0 then Some(s.withinHours) else None,
      s.cooldownSec)
  }

  /**
   * `dataToSubmit`: the form's values with a disabled rule's number sent as 0; an enabled
   * rule's number, the channel, the token, the cooldown and both switches go out as given.
   */
  function SubmitPayload(v: FormValues): (p: FormValues)
    ensures !v.thresholdEnabled ==> p.thresholdKwh == Some(0.0)
    ensures !v.withinEnabled ==> p.withinHours == Some(0.0)
    ensures v.thresholdEnabled ==> p.thresholdKwh == v.thresholdKwh
    ensures v.withinEnabled ==> p.withinHours == v.withinHours
    ensures p.channel == v.channel && p.token == v.token && p.cooldownSec == v.cooldownSec
    ensures p.thresholdEnabled == v.thresholdEnabled && p.withinEnabled == v.withinEnabled
  {
    v.(thresholdKwh := if v.thresholdEnabled then v.thresholdKwh else Some(0.0),
       withinHours := if v.withinEnabled then v.withinHours else Some(0.0))
  }

  /** The stored record after a payload with both numbers present is saved as sent. */
  function Saved(p: FormValues): Stored
    requires p.thresholdKwh.Some? && p.withinHours.Some?
  {
    Stored(p.channel, p.token, p.thresholdKwh.value, p.withinHours.value, p.cooldownSec)
  }

  /**
   * Opening the form and saving it untouched sends each stored number back when positive and
   * 0 otherwise; the channel, the cooldown and a present token are sent unchanged.
   */
  lemma DefaultsThenSubmit(s: Stored)
    ensures var p := SubmitPayload(DefaultValues(s));
      && p.thresholdKwh == Some(if s.thresholdKwh > 0.0 then s.thresholdKwh else 0.0)
      && p.withinHours == Some(if s.withinHours > 0.0 then s.withinHours else 0.0)
      && p.channel == s.channel && p.cooldownSec == s.cooldownSec
      && p.token == Some(if s.token.Some? then s.token.value else "")
  {
  }

  /** Saving an untouched form is idempotent: the saved record opens to the same form. */
  lemma DefaultsStable(s: Stored)
    ensures var p := SubmitPayload(DefaultValues(s));
      DefaultValues(Saved(p)) == DefaultValues(s)
  {
  }

  /**
   * The other direction: for a form whose rules hold, saving it and opening it again gives back
   * the same rule switches, the same numbers for the enabled rules, and the token (a missing
   * one as the empty text).
   */
  lemma SubmitThenDefaults(v: FormValues)
    requires ThresholdRule(v) && WithinRule(v)
    ensures var p := SubmitPayload(v);
      p.thresholdKwh.Some? && p.withinHours.Some? &&
      var back := DefaultValues(Saved(p));
      && back.thresholdEnabled == v.thresholdEnabled
      && back.withinEnabled == v.withinEnabled
      && (v.thresholdEnabled ==> back.thresholdKwh == v.thresholdKwh)
      && (v.withinEnabled ==> back.withinHours == v.withinHours)
      && back.channel == v.channel && back.cooldownSec == v.cooldownSec
      && back.token == Some(if v.token.Some? then v.token.value else "")
  {
  }

  /* ---------------------------------------------------------------------------------------------
   * Recognising a pasted URL or token.
   * ------------------------------------------------------------------------------------------- */

  /** ASCII lower-casing; the `i` flag equates an ASCII letter only with its other ASCII case. */
  function LowerAscii(c: char): char
  {
    if 'A' <= c <= 'Z' then (c as int + 32) as char else c
  }

  predicate EqualsIgnoreCase(a: string, b: string)
  {
    |a| == |b| && forall i :: 0 <= i < |a| ==> LowerAscii(a[i]) == LowerAscii(b[i])
  }

  /** The character classes after each URL's fixed part, with the `i` flag applied. */
  datatype CharClass = Alnum | AlnumOrDash | HexOrDash

  predicate InClass(cls: CharClass, c: char)
  {
    match cls
    case Alnum => IsAsciiAlnum(c)
    case AlnumOrDash => IsAsciiAlnum(c) || c == '-'
    case HexOrDash => IsHex(c) || c == '-'
  }

  /** The length of the longest run of class characters starting at `from`. */
  function RunLength(s: string, from: nat, cls: CharClass): (r: nat)
    requires from <= |s|
    ensures from + r <= |s|
    ensures forall i :: from <= i < from + r ==> InClass(cls, s[i])
    ensures from + r < |s| ==> !InClass(cls, s[from + r])
    decreases |s| - from
  {
    if from < |s| && InClass(cls, s[from]) then 1 + RunLength(s, from + 1, cls) else 0
  }

  /** The three URL patterns of the token field. */
  datatype UrlPattern = WxWorkUrl | FeishuUrl | ServerChanUrl

  /** The fixed text each URL pattern starts with. */
  function Literal(pat: UrlPattern): string
  {
    match pat
    case WxWorkUrl => "qyapi.weixin.qq.com/cgi-bin/webhook/send?key="
    case FeishuUrl => "open.feishu.cn/open-apis/bot/v2/hook/"
    case ServerChanUrl => "sctapi.ftqq.com/"
  }

  /** The captured group of a match of `pat` starting exactly at `i`, if one starts there. */
  function MatchAt(pat: UrlPattern, s: string, i: nat): Option<string>
    requires i <= |s|
  {
    var lit := Literal(pat);
    if i + |lit| > |s| || !EqualsIgnoreCase(s[i..i + |lit|], lit) then None
    else
      var k := i + |lit|;
      match pat
      case WxWorkUrl =>
        var r := RunLength(s, k, AlnumOrDash);
        if r == 0 then None else Some(s[k..k + r])
      case FeishuUrl =>
        var r := RunLength(s, k, HexOrDash);
        if r == 0 then None else Some(s[k..k + r])
      case ServerChanUrl =>
        if k + 3 > |s| || !EqualsIgnoreCase(s[k..k + 3], "SCT") then None
        else
          var r := RunLength(s, k + 3, Alnum);
          var e := k + 3 + r;
          if r == 0 || e + 5 > |s| || !EqualsIgnoreCase(s[e..e + 5], ".send") then None
          else Some(s[k..e])
  }

  /** `s.match(re)[1]`: the group of the leftmost match at or after `from`. */
  function Search(pat: UrlPattern, s: string, from: nat): Option<string>
    requires from <= |s|
    decreases |s| - from
  {
    var here := MatchAt(pat, s, from);
    if here.Some? then here
    else if from == |s| then None
    else Search(pat, s, from + 1)
  }

  /** The channel and token the pasted text is recognised as, in priority order; no channel when nothing matches. */
  function Detect(raw: string): (d: (Option<Channel>, string))
  {
    var value := Trim(raw);
    var wx, fs, sc := Search(WxWorkUrl, value, 0), Search(FeishuUrl, value, 0), Search(ServerChanUrl, value, 0);
    if wx.Some? then (Some(WxWork), wx.value)
    else if fs.Some? then (Some(Feishu), fs.value)
    else if sc.Some? then (Some(ServerChan), sc.value)
    else if IsSctToken(value) then (Some(ServerChan), value)
    else if IsUuid(value) then (Some(WxWork), value)
    else (None, value)
  }

  /** The form after `handleTokenChange`: the recognised channel, if any, and the token. */
  function AfterTokenChange(v: FormValues, raw: string): FormValues
  {
    var d := Detect(raw);
    v.(channel := if d.0.Some? then d.0.value else v.channel, token := Some(d.1))
  }

  /** A character a bare token may hold: an ASCII letter or digit, or a dash. */
  predicate TokenChar(c: char)
  {
    IsAsciiAlnum(c) || c == '-'
  }

  /** Every URL literal ends in a character ('/' or '=') that no token holds. */
  lemma LiteralEndsInSeparator(pat: UrlPattern)
    ensures var lit := Literal(pat);
      |lit| >= 1 && !TokenChar(lit[|lit| - 1]) && LowerAscii(lit[|lit| - 1]) == lit[|lit| - 1]
  {
  }

  /** Text made of token characters only matches none of the URL patterns. */
  lemma TokenTextNoUrl(pat: UrlPattern, s: string)
    requires forall j :: 0 <= j < |s| ==> TokenChar(s[j])
    ensures Search(pat, s, 0).None?
  {
    if Search(pat, s, 0).Some? {
      var i := LeftmostMatch(pat, s, 0);
      TokenTextNoMatchAt(pat, s, i);
    }
  }

  /** In text of token characters, no position begins a match: the literal's last character never matches. */
  lemma TokenTextNoMatchAt(pat: UrlPattern, s: string, i: nat)
    requires forall j :: 0 <= j < |s| ==> TokenChar(s[j])
    requires i <= |s|
    ensures MatchAt(pat, s, i).None?
  {
    var lit := Literal(pat);
    LiteralEndsInSeparator(pat);
    var k := |lit| - 1;
    if i + |lit| <= |s| {
      var window := s[i..i + |lit|];
      assert window[k] == s[i + k];
      assert TokenChar(LowerAscii(window[k]));
      DifferentAt(window, lit, k);
    }
  }

  /** Two texts that differ at one place, case aside, are not equal ignoring case. */
  lemma DifferentAt(a: string, b: string, k: nat)
    requires k < |a| && k < |b| && LowerAscii(a[k]) != LowerAscii(b[k])
    ensures !EqualsIgnoreCase(a, b)
  {
  }

  /**
   * A bare ServerChan key or 8-4-4-4-12 identifier (after trimming) is recognised as itself,
   * for ServerChan or WeCom respectively, and the resulting form passes both token rules.
   */
  lemma BareTokenPassesValidation(v: FormValues, raw: string)
    requires IsSctToken(Trim(raw)) || IsUuid(Trim(raw))
    ensures var d := Detect(raw);
      && d == (if IsSctToken(Trim(raw)) then (Some(ServerChan), Trim(raw)) else (Some(WxWork), Trim(raw)))
      && TokenPresent(AfterTokenChange(v, raw)) && TokenWellFormed(AfterTokenChange(v, raw))
  {
    BareTokenDetected(raw);
  }

  /** The detection half: no URL pattern can match a bare token, so the bare formats decide. */
  lemma BareTokenDetected(raw: string)
    requires IsSctToken(Trim(raw)) || IsUuid(Trim(raw))
    ensures Detect(raw) == (if IsSctToken(Trim(raw)) then (Some(ServerChan), Trim(raw)) else (Some(WxWork), Trim(raw)))
  {
    var value := Trim(raw);
    BareTokenChars(value);
    TokenTextNoUrl(WxWorkUrl, value);
    TokenTextNoUrl(FeishuUrl, value);
    TokenTextNoUrl(ServerChanUrl, value);
  }

  /** Both token formats consist of token characters only. */
  lemma BareTokenChars(t: string)
    requires IsSctToken(t) || IsUuid(t)
    ensures forall j :: 0 <= j < |t| ==> TokenChar(t[j])
  {
    forall j | 0 <= j < |t| ensures TokenChar(t[j]) {
      if IsSctToken(t) && j < 3 {
        assert t[j] == t[..3][j];
      }
    }
  }

  /** Text that matches nothing keeps the channel and becomes the token, trimmed. */
  lemma UnrecognisedKeepsChannel(v: FormValues, raw: string)
    requires var value := Trim(raw);
      && Search(WxWorkUrl, value, 0).None? && Search(FeishuUrl, value, 0).None?
      && Search(ServerChanUrl, value, 0).None? && !IsSctToken(value) && !IsUuid(value)
    ensures AfterTokenChange(v, raw) == v.(token := Some(Trim(raw)))
  {
  }

  /** A WeCom URL anywhere in the text wins over every other pattern. */
  lemma WxWorkUrlFirst(v: FormValues, raw: string)
    requires Search(WxWorkUrl, Trim(raw), 0).Some?
    ensures AfterTokenChange(v, raw).channel == WxWork
    ensures var t := AfterTokenChange(v, raw).token.value;
      |t| >= 1 && forall i :: 0 <= i < |t| ==> InClass(AlnumOrDash, t[i])
  {
    var value := Trim(raw);
    var i := LeftmostMatch(WxWorkUrl, value, 0);
    WxWorkGroup(value, i);
  }

  /** The group of a WeCom URL match is a non-empty run of letters, digits and dashes. */
  lemma WxWorkGroup(s: string, i: nat)
    requires i <= |s| && MatchAt(WxWorkUrl, s, i).Some?
    ensures var t := MatchAt(WxWorkUrl, s, i).value;
      |t| >= 1 && forall j :: 0 <= j < |t| ==> InClass(AlnumOrDash, t[j])
  {
    var k := i + |Literal(WxWorkUrl)|;
    var r := RunLength(s, k, AlnumOrDash);
    var t := s[k..k + r];
    assert MatchAt(WxWorkUrl, s, i) == Some(t);
    forall j | 0 <= j < |t| ensures InClass(AlnumOrDash, t[j]) {
      assert t[j] == s[k + j];
    }
  }

  /** The group of a Feishu URL match is a non-empty run of hex digits and dashes. */
  lemma FeishuGroup(s: string, i: nat)
    requires i <= |s| && MatchAt(FeishuUrl, s, i).Some?
    ensures var t := MatchAt(FeishuUrl, s, i).value;
      |t| >= 1 && forall j :: 0 <= j < |t| ==> InClass(HexOrDash, t[j])
  {
    var k := i + |Literal(FeishuUrl)|;
    var r := RunLength(s, k, HexOrDash);
    var t := s[k..k + r];
    assert MatchAt(FeishuUrl, s, i) == Some(t);
    forall j | 0 <= j < |t| ensures InClass(HexOrDash, t[j]) {
      assert t[j] == s[k + j];
    }
  }

  /**
   * The group of a ServerChan URL match is "SCT" in either case followed by letters or digits;
   * it passes the case-sensitive format rule exactly when its first three letters are capitals.
   */
  lemma ServerChanGroup(s: string, i: nat)
    requires i <= |s| && MatchAt(ServerChanUrl, s, i).Some?
    ensures var t := MatchAt(ServerChanUrl, s, i).value;
      && |t| >= 4 && EqualsIgnoreCase(t[..3], "SCT")
      && (forall j :: 3 <= j < |t| ==> IsAsciiAlnum(t[j]))
      && (IsSctToken(t) <==> t[..3] == "SCT")
  {
    var k := i + |Literal(ServerChanUrl)|;
    var r := RunLength(s, k + 3, Alnum);
    var t := s[k..k + 3 + r];
    assert MatchAt(ServerChanUrl, s, i) == Some(t);
    assert t[..3] == s[k..k + 3];
    forall j | 3 <= j < |t| ensures IsAsciiAlnum(t[j]) {
      assert t[j] == s[k + j];
      assert InClass(Alnum, s[k + 3 + (j - 3)]);
    }
  }

  /** A text shorter than a pattern's fixed part does not match it. */
  lemma TooShortNoMatch(pat: UrlPattern, s: string)
    requires |s| < |Literal(pat)|
    ensures Search(pat, s, 0).None?
  {
    if Search(pat, s, 0).Some? {
      var i := LeftmostMatch(pat, s, 0);
    }
  }

  /** Whenever some position at or after `from` begins a match, `Search` reports one. */
  lemma {:induction false} SearchFindsMatch(pat: UrlPattern, s: string, from: nat, i: nat)
    requires from <= i <= |s| && MatchAt(pat, s, i).Some?
    ensures Search(pat, s, from).Some?
    decreases i - from
  {
    if from < i && MatchAt(pat, s, from).None? {
      SearchFindsMatch(pat, s, from + 1, i);
    }
  }

  /** The start of the match `Search` reports: the first position at or after `from` that begins one. */
  lemma LeftmostMatch(pat: UrlPattern, s: string, from: nat) returns (i: nat)
    requires from <= |s| && Search(pat, s, from).Some?
    ensures from <= i <= |s| && MatchAt(pat, s, i) == Search(pat, s, from)
    ensures forall p :: from <= p < i ==> MatchAt(pat, s, p).None?
    decreases |s| - from
  {
    if MatchAt(pat, s, from).Some? {
      i := from;
    } else {
      i := LeftmostMatch(pat, s, from + 1);
      forall p | from <= p < i
        ensures MatchAt(pat, s, p).None?
      {
        if p == from {
          assert MatchAt(pat, s, from).None?;
        }
      }
    }
  }

  /**
   * The ServerChan URL pattern ignores case but the format rule does not: a lower-case key in a
   * URL is recognised, and the form then fails the token rule.
   */
  lemma LowerCaseServerChanUrlRejected(v: FormValues, raw: string)
    requires raw == "sctapi.ftqq.com/sct1.send"
    ensures var w := AfterTokenChange(v, raw);
      w.channel == ServerChan && w.token == Some("sct1") && !TokenWellFormed(w)
  {
    ExampleDetect(raw);
    var w := AfterTokenChange(v, raw);
    assert w.token == Some("sct1");
    LowerCaseKeyRejected(w.token.value);
  }

  lemma LowerCaseKeyRejected(t: string)
    requires t == "sct1"
    ensures !IsSctToken(t)
  {
    assert t[0] == 's';
  }

  lemma ExampleDetect(s: string)
    requires s == "sctapi.ftqq.com/sct1.send"
    ensures Detect(s) == (Some(ServerChan), "sct1")
  {
    ExampleIsTrimmed(s);
    ExampleMatches(s);
    TooShortNoMatch(WxWorkUrl, s);
    TooShortNoMatch(FeishuUrl, s);
  }

  lemma ExampleIsTrimmed(s: string)
    requires s == "sctapi.ftqq.com/sct1.send"
    ensures Trim(s) == s
  {
    assert s[0] == 's' && s[|s| - 1] == 'd';
    TrimOfUntrimmable(s);
  }

  lemma ExampleMatches(s: string)
    requires s == "sctapi.ftqq.com/sct1.send"
    ensures Search(ServerChanUrl, s, 0) == Some("sct1")
  {
    ExampleMatchesAtStart(s);
  }

  lemma ExampleMatchesAtStart(s: string)
    requires s == "sctapi.ftqq.com/sct1.send"
    ensures MatchAt(ServerChanUrl, s, 0) == Some("sct1")
  {
    assert EqualsIgnoreCase(s[0..16], "sctapi.ftqq.com/");
    assert EqualsIgnoreCase(s[16..19], "SCT");
    assert RunLength(s, 20, Alnum) == 0;
    assert RunLength(s, 19, Alnum) == 1;
    assert EqualsIgnoreCase(s[20..25], ".send");
    assert s[16..20] == "sct1";
  }

  /** The form's state: `handleTokenChange` writes the channel (when recognised) and the token. */
  class NotifyForm {
    var values: FormValues

    /** `useForm` with the defaults of the stored subscription. */
    constructor (s: Stored)
      ensures values == DefaultValues(s)
    {
      values := DefaultValues(s);
    }

    /** `handleTokenChange`: tries the patterns in priority order, then sets the fields. */
    method HandleTokenChange(raw: string)
      modifies this
      ensures values == AfterTokenChange(old(values), raw)
    {
      var value := Trim(raw);
      var channel: Option<Channel> := None;
      var token := value;

      var wxworkMatch := Search(WxWorkUrl, value, 0);
      var feishuMatch := Search(FeishuUrl, value, 0);
      var serverchanUrlMatch := Search(ServerChanUrl, value, 0);
      var serverchanTokenMatch := IsSctToken(value);
      var uuidMatch := IsUuid(value);

      if wxworkMatch.Some? {
        channel, token := Some(WxWork), wxworkMatch.value;
      } else if feishuMatch.Some? {
        channel, token := Some(Feishu), feishuMatch.value;
      } else if serverchanUrlMatch.Some? {
        channel, token := Some(ServerChan), serverchanUrlMatch.value;
      } else if serverchanTokenMatch {
        channel, token := Some(ServerChan), value;
      } else if uuidMatch {
        channel, token := Some(WxWork), value;
      }

      if channel.Some? {
        values := values.(channel := channel.value);
      }
      values := values.(token := Some(token));
    }
  }
}
