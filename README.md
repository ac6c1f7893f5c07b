# dormitricity-frontend core, modelled in Dafny

This project models the computational core of the dormitricity web front end. The front end tracks dormitory electricity balances. Five parts are modelled:

- **`kwh2kw`** (`src/lib/utils.ts`) turns a history of meter readings (kWh at Unix-second timestamps) into a power series (kW). The model covers the whole pipeline:
  - it sorts the readings stably by timestamp and drops repeated timestamps;
  - it aligns a grid of `stepSec` multiples inside the sampled span;
  - it interpolates the energy at every grid point through a cursor `j` that is shared between calls and only moves forward;
  - it turns the backward differences into kW, stamped with each interval's right end.

  The cursor closure is the class `Resample.Interpolator`. The two `for` loops and the `map` are methods proved against the specification function `Resample.PowerSeries`. The sort and the filter are expression-style in the source, so they are functions (module `Readings`).
- **The depletion estimate of a subscription card** (`src/components/subs/SubsCard.tsx`). It predicts when the balance reaches zero at the current draw and picks a countdown mode: none, to the second, or in days and hours. It also covers the text each timer tick shows. The clock is a parameter (module `Depletion`).
- **The countdown formatters** `formatHMS` and `formatDaysHours` (`src/lib/format.ts`). Each is proved to print a text that parses back to the clamped whole-second or whole-hour count (module `Format`). The parsers `Format.ParseHMS` and `Format.ParseDaysHours` are not in the source: they are reference inverses, and the round trips through them show that no two counts print the same text.
- **The notification settings form** (`src/components/subs/NotifySetting.tsx`), in module `NotifySettings`:
  - the four rules of its validation schema;
  - the mapping from a stored subscription to the form's defaults, and from the form to the saved payload;
  - `handleTokenChange`, which recognises a pasted WeCom, Feishu or ServerChan webhook URL, or a bare token. Its fixed regular expressions are written out as character-class predicates and a leftmost search.
- **The language choice** of `src/components/I18nProvider.tsx` (module `Locale`).

The JavaScript string built-ins the core uses are in module `Text`: number-to-string, `padStart`, `split`, `join` and `trim`.

Two facts follow from the code rather than from its comments:

- On a repeated timestamp, the dedupe filter keeps the reading that came **first** in the input. The sort is stable and the filter compares each point with its predecessor. The comment at `src/lib/utils.ts:16` says the last is kept; the model follows the code (`Readings.KeepsFirstNotLast`).
- The ServerChan URL pattern ignores case, but the format rule does not. A lower-case key pasted as a URL is recognised and then rejected (`NotifySettings.LowerCaseServerChanUrlRejected`).

## Model

| member | source | states |
|---|---|---|
| Readings.SortByTs | src/lib/utils.ts:17-18 | the stable sort of a copy of the readings; its contract is SortByTsSortsAndPermutes and SortByTsStable |
| Readings.DropRepeatedTs | src/lib/utils.ts:19 | the filter that drops a point whose predecessor has the same timestamp; its contract is DropRepeatedTsStrict and DropRepeatedTsTimestamps |
| Readings.Working | src/lib/utils.ts:17-19 | the array `sorted` of kwh2kw; its contract is WorkingKeepsFirstPerTimestamp, WorkingSize and WorkingFromHistory |
| Readings.SortByTsSortsAndPermutes | src/lib/utils.ts:17-18 | the copied and sorted readings are ordered by timestamp and are a permutation of the input |
| Readings.SortByTsStable | src/lib/utils.ts:17-18 | the sort is stable: the readings sharing any one timestamp keep their input order |
| Readings.DropRepeatedTsStrict | src/lib/utils.ts:19 | the filter applied to sorted readings leaves strictly increasing timestamps |
| Readings.DropRepeatedTsTimestamps | src/lib/utils.ts:19 | the filter keeps exactly the timestamps of its input |
| Readings.WorkingKeepsFirstPerTimestamp | src/lib/utils.ts:17-19 | the working array has strictly increasing timestamps and the input's timestamp set, and each of its points is the first input reading with that timestamp |
| Readings.WorkingSize | src/lib/utils.ts:17-21 | the working array has exactly one point per distinct input timestamp, so it is never longer than the input |
| Readings.WorkingFromHistory | src/lib/utils.ts:17-19 | every working point is one of the input readings |
| Readings.KeepsFirstNotLast | src/lib/utils.ts:16-19 | for two readings at one timestamp, the first one given is kept |
| Resample.FloorDiv | src/lib/utils.ts:28 | `Math.floor(a / b)` is the largest q with q*b <= a |
| Resample.CeilDiv | src/lib/utils.ts:27 | `Math.ceil(a / b)` is the smallest q with a <= q*b |
| Resample.GridStart | src/lib/utils.ts:27 | `Math.ceil(firstTs / stepSec) * stepSec`; GridBounds states it is the first step multiple at or after firstTs |
| Resample.GridEnd | src/lib/utils.ts:28 | `Math.floor(lastTs / stepSec) * stepSec`; GridBounds states it is the last step multiple at or before lastTs |
| Resample.GridPoints | src/lib/utils.ts:52 | the grid timestamps from gridStart to gridEnd; GridPointsShape states their number and values, and GridTimestamps that the loop builds them |
| Resample.GridBounds | src/lib/utils.ts:27-28 | gridStart and gridEnd are multiples of stepSec; gridStart is the first multiple at or after firstTs, gridEnd the last at or before lastTs |
| Resample.GridPointsShape | src/lib/utils.ts:52-53 | between two multiples at least one step apart, the grid has (gridEnd-gridStart)/stepSec+1 >= 2 points from gridStart to gridEnd, all multiples: the `gridTs.length < 2` return never fires |
| Resample.GridTimestamps | src/lib/utils.ts:51-52 | the `for` loop pushes exactly the grid points gridStart, gridStart+stepSec, ... up to gridEnd |
| Resample.Advance | src/lib/utils.ts:36 | the cursor stops at the first index from its start whose timestamp is at least t, or at the length |
| Resample.ValueAtCursor | src/lib/utils.ts:38-47 | what interpAt returns with its cursor at j: the two clamps, the `dt <= 0` fallback and the line; its contract is InterpAtSample and InterpBetween |
| Resample.Interp | src/lib/utils.ts:34-48 | interpAt for a fresh cursor; Interpolator.At and InterpolateGrid equate the shared cursor with it, and InterpAtSample, InterpBetween and InterpAntitone state its values |
| Resample.GridValues | src/lib/utils.ts:55 | the interpolated energy at each grid point; InterpolateGrid states that the shared-cursor `map` computes it |
| Resample.IntervalKw | src/lib/utils.ts:60-63 | `-(dkwh / stepSec) * 3600`; IntervalEnergy states that it held over one step gives back the energy drop |
| Resample.PowerPoints | src/lib/utils.ts:58-64 | the backward differences as kW stamped with each interval's right end; its contract is PowerPointsSign, IntervalEnergy and PowerPointsTelescope |
| Resample.Resampled | src/lib/utils.ts:24-64 | steps 2 to 5 on the working array; its contract is ResampledShape, ResampledEnergy, ResampledNonNegative and ResampledConstant |
| Resample.PowerSeries | src/lib/utils.ts:13-66 | the result of kwh2kw; Kwh2Kw computes it, and its contract is PowerSeriesNeedsTwoTimestamps, PowerSeriesNonNegative and PowerSeriesConstant |
| Resample.Interpolator.At | src/lib/utils.ts:34-48 | interpAt moves the shared cursor forward, never back and never past the length, over exactly the points stamped before t, and returns the value at the cursor |
| Resample.InterpolateGrid | src/lib/utils.ts:55 | mapping increasing grid points through the one shared cursor gives, at each point, the value a fresh sweep from index 0 gives |
| Resample.Differences | src/lib/utils.ts:58-64 | the difference loop emits, for each interval, `-(dkwh/stepSec)*3600` kW stamped with the interval's right end |
| Resample.Kwh2Kw | src/lib/utils.ts:13-66 | the whole procedure, with its early returns, computes PowerSeries |
| Resample.PowerSeriesNeedsTwoTimestamps | src/lib/utils.ts:14-21 | fewer than two distinct timestamps give the empty series |
| Resample.ShortSpanEmpty | src/lib/utils.ts:13-29 | with the default 15-minute step, readings at 905 s and 1795 s hold no whole grid interval, so the result is empty |
| Resample.ResampledShape | src/lib/utils.ts:52-64 | past the early returns the series has (gridEnd-gridStart)/stepSec >= 1 points; point i is stamped gridStart+(i+1)*stepSec, a multiple of the step, after the first reading and at or before the last; the final point is at gridEnd |
| Resample.Lerp | src/lib/utils.ts:46-47 | `p1.pt + alpha * (p2.pt - p1.pt)` with `alpha = (t - p1.ts) / dt`; LerpBetween and LerpAntitone state its range and direction |
| Resample.LerpBetween | src/lib/utils.ts:46-47 | over (p1.ts, p2.ts] the interpolated value lies between p1.pt and p2.pt |
| Resample.AdvanceToSample | src/lib/utils.ts:36 | on strictly increasing timestamps, a sweep for a sample's own timestamp stops on that sample |
| Resample.InterpAtSample | src/lib/utils.ts:36-47 | at a sample's own timestamp the interpolation returns that sample's value, in the `j === 0` case too |
| Resample.InterpBetween | src/lib/utils.ts:36-47 | inside the sampled span the cursor stops inside the array, and the value lies between the values of the two neighbouring samples; the right clamp and the `dt <= 0` fallback are never taken; the `j === 0` clamp is taken only at `t == firstTs`, where it returns that sample's value |
| Resample.InterpAntitone | src/lib/utils.ts:36-47 | if the readings never rise, the interpolation never rises across the span |
| Resample.PowerPointsSign | src/lib/utils.ts:59-64 | falling grid energy gives kW >= 0; flat grid energy gives 0 kW |
| Resample.IntervalEnergy | src/lib/utils.ts:60-63 | an interval's kW held over one step gives back the interval's energy drop |
| Resample.PowerPointsTelescope | src/lib/utils.ts:59-64 | the sum of pt*stepSec/3600 over the output equals the first grid energy minus the last |
| Resample.ResampledEnergy | src/lib/utils.ts:50-64 | the energy of the kW series equals the interpolated drop from gridStart to gridEnd |
| Resample.ResampledNonNegative | src/lib/utils.ts:55-64 | on strictly increasing readings that never rise, every kW value is non-negative |
| Resample.PowerSeriesNonNegative | src/lib/utils.ts:13-66 | if no reading is above an earlier one, every kW value returned is non-negative |
| Resample.ResampledConstant | src/lib/utils.ts:55-64 | readings that all carry one energy give a series of zeros |
| Resample.PowerSeriesConstant | src/lib/utils.ts:13-66 | unchanging readings give a kW series of zeros |
| Resample.TwoReadingsResampled | src/lib/utils.ts:24-64 | readings of 10 kWh at 0 s and 8 kWh at 900 s resample to one point of 8 kW at 900 s |
| Resample.TwoReadingsOneInterval | src/lib/utils.ts:13-66 | kwh2kw of those two readings, with the default 15-minute step, is the single point (900, 8 kW) |
| Format.TotalSeconds | src/lib/format.ts:3 | the clamped second count is 0 below one second and otherwise the whole seconds in ms |
| Format.SplitSeconds | src/lib/format.ts:4-6 | h*3600 + m*60 + s is the total, with m < 60 and s < 60 |
| Format.TotalHours | src/lib/format.ts:13 | the clamped hour count is 0 below one hour and otherwise the whole hours in ms |
| Format.SplitHours | src/lib/format.ts:14-15 | d*24 + h is the total, with h < 24 |
| Format.Pad2 | src/lib/format.ts:7 | `n.toString().padStart(2, "0")`; Pad2Digits states its digits, width and value |
| Format.Pad2Digits | src/lib/format.ts:7 | a padded field is all digits, two wide below 100 and otherwise as wide as the numeral, and denotes n |
| Format.FormatHMS | src/lib/format.ts:2-9 | formatHMS; its contract is FormatHMSRoundTrip, FormatHMSInjective, FormatHMSBelowOneSecond and FormatHMSWideHours |
| Format.FormatHMSRoundTrip | src/lib/format.ts:2-9 | the "hh:mm:ss" text parses back to the clamped second count |
| Format.HMSTextRoundTrip | src/lib/format.ts:4-8 | the "hh:mm:ss" text of any whole second count, hours unwrapped, parses back to that count |
| Format.FormatHMSInjective | src/lib/format.ts:2-9 | two amounts print the same text exactly when their second counts agree |
| Format.FormatHMSBelowOneSecond | src/lib/format.ts:3-8 | anything below one second, negative amounts included, prints "00:00:00" |
| Format.FormatHMSWideHours | src/lib/format.ts:4-8 | hours are not wrapped: the text is 9 or more characters exactly from 100 hours on |
| Format.FormatDaysHours | src/lib/format.ts:12-17 | formatDaysHours; its contract is FormatDaysHoursRoundTrip and FormatDaysHoursBelowOneHour |
| Format.FormatDaysHoursRoundTrip | src/lib/format.ts:12-17 | the "d days h hours" text parses back to the clamped hour count |
| Format.DaysHoursTextRoundTrip | src/lib/format.ts:14-16 | the "d days h hours" text of any whole hour count parses back to that count |
| Format.FormatDaysHoursBelowOneHour | src/lib/format.ts:13-16 | anything below one hour, negative amounts included, prints "0 days 0 hours" |
| Format.TotalsMonotone | src/lib/format.ts:3-13 | a larger amount never gives a smaller second or hour count |
| Depletion.DepleteAtMs | src/components/subs/SubsCard.tsx:51-56 | the instant the balance reaches zero at the current draw; DepletionTiers states that it is the instant kept |
| Depletion.EstimateDepletion | src/components/subs/SubsCard.tsx:42-68 | the mode is none exactly when no instant is kept; a kept instant lies in the future, within one day for "second" and between one and three days for "hour" |
| Depletion.NotDischargingIsOff | src/components/subs/SubsCard.tsx:44-49 | a missing or non-negative power gives (null, none) |
| Depletion.EmptyBalanceIsOff | src/components/subs/SubsCard.tsx:51-54 | under a draw, a balance at or below zero gives (null, none) |
| Depletion.DepletionTiers | src/components/subs/SubsCard.tsx:55-67 | for a positive balance under a draw: "second" exactly when 0 < delta <= 1 day, "hour" exactly when 1 day < delta <= 3 days; the instant kept is (last_ts + kwh/-kw*3600)*1000 |
| Depletion.OneHourLeftExample | src/components/subs/SubsCard.tsx:51-65 | 5 kWh at -5 kW deplete at (last_ts+3600)*1000, which is "second" mode at the reading's instant |
| Depletion.Phase | src/components/subs/SubsCard.tsx:58-67 | the stage of the time left is one of four (0 too far, 1 hour tier, 2 second tier, 3 past); TierMovesForward ties each stage to its mode and proves stages only advance |
| Depletion.TierMovesForward | src/components/subs/SubsCard.tsx:57-67 | for fixed readings a later clock moves the card only forward: too far, hour, second, past |
| Depletion.Tick | src/components/subs/SubsCard.tsx:79-91 | a tick shows no countdown exactly when the instant is reached; the text it shows otherwise is stated by SecondCountdownTicks and HourCountdownTicks |
| Depletion.Falsy | src/components/subs/SubsCard.tsx:74 | `!depleteAtMs`: null or 0; StartCountdown states that exactly then, or in mode none, no timer starts |
| Depletion.StartCountdown | src/components/subs/SubsCard.tsx:73-98 | without an instant (or with instant 0) or in mode none there is no countdown and no timer; otherwise the timer runs every 1000 ms in "second" mode and every 3600000 ms otherwise |
| Depletion.EstimateStartsCountdown | src/components/subs/SubsCard.tsx:42-98 | an estimate made at a non-negative clock starts a countdown and a timer exactly when its mode is not none |
| Depletion.SecondTierText | src/components/subs/SubsCard.tsx:86-87 | within a day the "second" text is 25 characters, with at most 24 hours, and reads back as the whole seconds left |
| Depletion.HourTierText | src/components/subs/SubsCard.tsx:88-89 | within three days the "hour" text counts at most 3 days, at least 1 when more than a day is left, and reads back as the whole hours left |
| Depletion.SecondCountdownTicks | src/components/subs/SubsCard.tsx:79-93 | every tick of a "second" countdown before depletion shows the 25-character text of the seconds left |
| Depletion.HourTickText | src/components/subs/SubsCard.tsx:88-89 | within three days of depletion an "hour" tick shows "Depletes in " followed by a text that reads back as the whole hours left |
| Depletion.HourCountdownTicks | src/components/subs/SubsCard.tsx:79-93 | every tick of an "hour" countdown before depletion shows "Depletes in " and the whole hours left |
| NotifySettings.IsSctToken | src/components/subs/NotifySetting.tsx:52 | `/^(SCT[0-9A-Za-z]+)$/`, case-sensitive; AcceptedToken, BareTokenPassesValidation and ServerChanGroup state where it decides |
| NotifySettings.IsUuid | src/components/subs/NotifySetting.tsx:53 | the 8-4-4-4-12 hex pattern with the `i` flag; AcceptedToken and BareTokenPassesValidation state where it decides |
| NotifySettings.HasToken | src/components/subs/NotifySetting.tsx:45 | `!!data.notify_token`: present and not empty; Validate and AcceptedToken state its role in the first rule |
| NotifySettings.TokenPresent | src/components/subs/NotifySetting.tsx:44-47 | the first refinement; Validate reports TokenRequired exactly when it fails |
| NotifySettings.TokenWellFormed | src/components/subs/NotifySetting.tsx:48-60 | the second refinement; Validate reports TokenInvalid exactly when it fails, and AcceptedToken states the formats it then guarantees |
| NotifySettings.ThresholdRule | src/components/subs/NotifySetting.tsx:61-64 | the third refinement; Validate reports ThresholdNotPositive exactly when it fails |
| NotifySettings.WithinRule | src/components/subs/NotifySetting.tsx:65-68 | the fourth refinement; Validate reports WithinNotPositive exactly when it fails |
| NotifySettings.Validate | src/components/subs/NotifySetting.tsx:44-68 | the form is accepted exactly when all four rules hold; each issue is reported exactly when its rule fails; a missing token is never also reported as malformed |
| NotifySettings.FieldErrors | src/components/subs/NotifySetting.tsx:44-68 | the `notify_token` field carries an error exactly when either token rule fails, and `threshold_kwh` and `within_hours` each exactly when their own rule fails |
| NotifySettings.AcceptedToken | src/components/subs/NotifySetting.tsx:44-68 | an accepted form has a token for any channel but none; a ServerChan token matches SCT plus letters or digits, case-sensitively; a WeCom or Feishu token is 8-4-4-4-12 hex; an enabled rule has a positive number |
| NotifySettings.NoChannelIgnoresToken | src/components/subs/NotifySetting.tsx:45-50 | with channel none the token does not affect validation |
| NotifySettings.DefaultValues | src/components/subs/NotifySetting.tsx:86-94 | a rule is enabled exactly when its stored number is positive, and then carries exactly that number, otherwise none; channel and cooldown are the stored ones, the token is the stored one or ""; the defaults satisfy both number rules |
| NotifySettings.SubmitPayload | src/components/subs/NotifySetting.tsx:175-180 | a disabled rule's number is sent as 0; an enabled rule's number, the channel, the token, the cooldown and both switches are sent as given |
| NotifySettings.DefaultsThenSubmit | src/components/subs/NotifySetting.tsx:176-180 | saving an untouched form sends each stored number when positive and 0 otherwise, with channel, cooldown and token (or "") unchanged |
| NotifySettings.DefaultsStable | src/components/subs/NotifySetting.tsx:86-94 | reopening the record saved from an untouched form gives the same form again |
| NotifySettings.SubmitThenDefaults | src/components/subs/NotifySetting.tsx:89-92 | for a form whose number rules hold, reopening what was saved gives back the same switches, the numbers of the enabled rules, the channel, the cooldown and the token (a missing one as "") |
| NotifySettings.MatchAt | src/components/subs/NotifySetting.tsx:116-119 | the group of a URL pattern match starting at one position; TokenTextNoMatchAt states what it rejects, and WxWorkGroup, FeishuGroup and ServerChanGroup what each pattern captures |
| NotifySettings.Search | src/components/subs/NotifySetting.tsx:124-126 | `value.match(re)[1]` for a URL pattern; its contract is SearchFindsMatch and LeftmostMatch |
| NotifySettings.Detect | src/components/subs/NotifySetting.tsx:110-134 | the channel and token the trimmed text is recognised as, in priority order; its contract is WxWorkUrlFirst, BareTokenPassesValidation and UnrecognisedKeepsChannel |
| NotifySettings.AfterTokenChange | src/components/subs/NotifySetting.tsx:136-137 | the form after handleTokenChange: the recognised channel, if any, and the token; NotifyForm.HandleTokenChange computes it |
| NotifySettings.RunLength | src/components/subs/NotifySetting.tsx:117-119 | a greedy character-class run: every character in it is in the class, and the next one is not |
| NotifySettings.SearchFindsMatch | src/components/subs/NotifySetting.tsx:124-126 | `match` without the global flag finds a group whenever some position from the start begins a match |
| NotifySettings.LeftmostMatch | src/components/subs/NotifySetting.tsx:124-126 | conversely, a group found is the group of the match at the first position that begins one: no earlier position matches |
| NotifySettings.TokenTextNoUrl | src/components/subs/NotifySetting.tsx:117-119 | text made only of letters, digits and dashes matches none of the URL patterns, since each literal ends in '/' or '=' |
| NotifySettings.WxWorkGroup | src/components/subs/NotifySetting.tsx:117 | the group of a WeCom URL match is a non-empty run of letters, digits and dashes |
| NotifySettings.FeishuGroup | src/components/subs/NotifySetting.tsx:118 | the group of a Feishu URL match is a non-empty run of hex digits and dashes |
| NotifySettings.ServerChanGroup | src/components/subs/NotifySetting.tsx:119 | the group of a ServerChan URL match is "SCT" in either case followed by one or more letters or digits, and it passes the case-sensitive format rule of :52 exactly when those three letters are capitals |
| NotifySettings.WxWorkUrlFirst | src/components/subs/NotifySetting.tsx:130 | a WeCom URL wins over every other pattern, and its key is a non-empty run of letters, digits and dashes |
| NotifySettings.BareTokenPassesValidation | src/components/subs/NotifySetting.tsx:133-134 | a bare SCT key or 8-4-4-4-12 identifier is recognised as itself (ServerChan, or WeCom for the identifier), and the form then passes both token rules |
| NotifySettings.UnrecognisedKeepsChannel | src/components/subs/NotifySetting.tsx:136-137 | text that matches nothing keeps the channel and becomes the trimmed token |
| NotifySettings.LowerCaseServerChanUrlRejected | src/components/subs/NotifySetting.tsx:119 | "sctapi.ftqq.com/sct1.send" is recognised as ServerChan with token "sct1", which then fails the case-sensitive format rule |
| NotifySettings.NotifyForm.HandleTokenChange | src/components/subs/NotifySetting.tsx:109-138 | the handler writes the recognised channel, if any, and the token, in the priority order WeCom URL, Feishu URL, ServerChan URL, bare SCT key, bare identifier |
| Locale.PathParts | src/components/I18nProvider.tsx:15 | the path's parts split at '/', or no parts for a missing path; its contract is SegmentAlone and SegmentThenRest with Text.Split and JoinSplit |
| Locale.SegmentAlone | src/components/I18nProvider.tsx:15 | a path "/seg" splits into "" and the segment |
| Locale.SegmentThenRest | src/components/I18nProvider.tsx:15 | a path "/seg/rest" has the segment as element 1 of its parts |
| Locale.ChooseLocale | src/components/I18nProvider.tsx:16-32 | the branch chain of the effect; its contract is StoredPreferenceIgnored |
| Locale.UrlLocale | src/components/I18nProvider.tsx:15-16 | the URL locale is always supported, and it is element 1 of the path's parts whenever it is not the "zh" fallback |
| Locale.StoredPreferenceIgnored | src/components/I18nProvider.tsx:19-32 | the chosen locale is always the URL locale and is supported; the stored preference and the default branch never decide |
| Locale.LocalePrefixSelected | src/components/I18nProvider.tsx:15-16 | a path whose first segment is en, ja or zh selects that locale |
| Locale.OtherPrefixFallsBack | src/components/I18nProvider.tsx:15-16 | a path whose first segment is anything else selects zh |
| Locale.LocaleExamples | src/components/I18nProvider.tsx:15-16 | "/en/x" gives en; a missing path gives zh |
| Locale.RootExample | src/components/I18nProvider.tsx:15-16 | "/" gives zh |
| Locale.DashboardExample | src/components/I18nProvider.tsx:15-16 | "/dashboard" gives zh |
| Locale.I18n.SyncWithPath | src/components/I18nProvider.tsx:13-33 | each run of the effect makes exactly one language change, to the chosen locale |
| Text.Decimal | src/lib/format.ts:7 | `n.toString()` is a non-empty string of digits, one character exactly below 10, with no leading zero except for 0 itself |
| Text.ParseDecimalOfDecimal | src/lib/format.ts:7 | the numeral of n reads back as n |
| Text.DecimalWidth | src/lib/format.ts:7 | the numeral has three or more digits exactly from 100 on |
| Text.PadStart | src/lib/format.ts:7 | `padStart` keeps the text as the suffix and fills the front up to the width, never shortening |
| Text.ParseDecimalZeroPadded | src/lib/format.ts:7 | zero padding keeps a numeral all digits and does not change its value |
| Text.Split | src/components/I18nProvider.tsx:15 | `split` gives at least one part, and no part holds the separator |
| Text.JoinSplit | src/components/I18nProvider.tsx:15 | joining the parts with the separator gives the text back |
| Text.SplitJoin | src/components/I18nProvider.tsx:15 | separator-free parts joined by the separator split back into the same parts |
| Text.Trim | src/components/subs/NotifySetting.tsx:110 | `String.prototype.trim`; its contract is TrimEndsNotWhitespace, TrimKeepsContent and TrimOfUntrimmable |
| Text.TrimEndsNotWhitespace | src/components/subs/NotifySetting.tsx:110 | the trimmed value neither starts nor ends with whitespace |
| Text.TrimKeepsContent | src/components/subs/NotifySetting.tsx:110 | the trimmed value is a contiguous slice of the input holding every character that is not whitespace |
| Text.TrimOfUntrimmable | src/components/subs/NotifySetting.tsx:110 | a value that neither starts nor ends with whitespace is unchanged by trimming |

## Left out

- Floating point: kWh, kW and milliseconds are reals. Rounding, NaN and Infinity are not modelled.
- Depletion.EstimateDepletion: over the reals, the `isFinite(hoursToZero)` guard (`src/components/subs/SubsCard.tsx:52`) reduces to `hoursToZero <= 0`.
- Resample.Kwh2Kw: the `!Array.isArray(history)` test is not modelled, because the input is a sequence of points by type.
- Resample.Kwh2Kw: the `gridTs.length < 2` return (`src/lib/utils.ts:53`) is not written as a branch, because it can never be taken. `Resample.GridPointsShape` proves the grid always has at least two points there.
- `stepSec` must be positive; the source never checks it.
- Clocks and timers: `Date.now`, `setInterval` and `clearInterval` are left out. The clock is a parameter, and the timer is modelled only by its period (`Depletion.StartCountdown`) and the text of a tick (`Depletion.Tick`). React state, effects and re-rendering are left out: the mode stays whatever the memoised estimate chose at render time.
- `localStorage` is a parameter of `Locale.I18n.SyncWithPath`. The i18n library and its configuration are not part of this model, so the language before the first run is a constructor parameter.
- NotifySettings.Validate assumes that the schema library runs every refinement, including after an earlier one fails, and reports one issue per failing refinement. That library and react-hook-form are not part of this model.
- NotifySettings.Saved assumes the server stores the submitted numbers as sent. The request (`apiClient.put`) and the server are not part of this model. Nor are the test notification (`onTest`) and the deletion (`handleDelete`), which are network calls.
- Strings are sequences of Unicode characters, not of UTF-16 code units. The patterns only name ASCII characters, and the `i` flag only equates ASCII letters with their other case.
- Rendering, the delete confirmation, `cn`, the charts, the API client and the remaining pages hold no logic of the core and are not modelled.
