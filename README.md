# Installation request form: the rules behind the fields

A model, in Dafny, of the rules inside the installation-request form of a Chilean
internet provider (`src/App.tsx`). The form asks for the customer's data and address, a
plan, photos of the identity card and proof of address, installation dates and a time
window, and sends them to a backend. The model covers the logic the form runs on
the customer's input. Rendering, styling and the network calls are not modelled.

- **Rut** (`rut.dfy`): the national identity number (RUT):
  - `cleanRut` as `Clean`;
  - `formatRut` as `Format`, with the source's reverse/chunk/join/reverse pipeline as `GroupBody`;
  - `validateRut` as the method `ValidateRut`, with the weighted-sum loop in `WeightedSum`.
  - JavaScript's `NaN` from `parseInt` of a `K` in the body is a `Number` variant.
  - The methods are proved against the specification function `IsValidRut` (a sum from the right, weights 2..7).
- **TimeWindow** (`timewindow.dfy`):
  - the strict `HH:MM` parser `timeToMinutes`, where JavaScript's `NaN` is `None`;
  - `validateTimeRange`;
  - the 17 slots of `timeOptions`;
  - the "Hasta" list `filteredTimeToOptions`;
  - the effect that clears "Hasta" when the range turns invalid.
- **Phone** (`phone.dfy`):
  - the keystroke normaliser of the two phone fields: digits only, at most nine, the first forced to 9;
  - the notice shown once per field;
  - the two validators;
  - the digits sent on submission.
- **InstallDates** (`installdates.dfy`):
  - `toggleDate`;
  - the loop of `getValidDates`, over day offsets from today: the weekdays from tomorrow up to two weeks ahead.
- **Address** (`address.dfy`): what a geocoded place writes into the address fields:
  - `getComponent`;
  - the `||` fallbacks for city and neighbourhood;
  - `split(',')[0]` for the street.
- **Geolocation** (`geolocation.dfy`): the "use my location" button, a class whose fields are the form state it changes:
  - the `isLocating` flag;
  - the coordinates;
  - the address fields;
  - the notifications;
  - the sources consulted.

  The sources are tried in a fixed order: precise GPS, coarse GPS, the Google geolocation service, then an IP lookup. The handler is proved against the specification functions `Chain`, `Consulted`, `FirstFound` and `OutcomeToasts`.
- **Uploads** (`uploads.dfy`): the image uploads:
  - `isAllowedImage`;
  - the resolution gate of `checkImageResolution`;
  - the order of the checks in the `onChange` of the three upload inputs.
- **Submit** (`submit.dfy`): the checks `onSubmit` runs before it builds the request, and the first failing check decides the outcome.
- **Wrappers**, **Chars** (`wrappers.dfy`, `chars.dfy`): `Option`, the `Valid | Invalid(message)` answer of a validator (`true | string` in the source), and ASCII digits.

Where the code and its comments disagree, the model follows the code. The comment at
`src/App.tsx:408` promises that the coordinates are kept when reverse geocoding fails,
but this holds only when the geocoder reports an error. With no geocoder loaded, or an
answer with no place, `reverseGeocodeAndFill` returns before storing anything
(`src/App.tsx:376`, `385`). `StoresCoordinates` states exactly that.

## Model

| member | source | states |
|---|---|---|
| Rut.Clean | src/App.tsx:716 | cleaning never lengthens the input |
| Rut.CleanChars | src/App.tsx:716 | the cleaned text holds only digits and `K`, and is never longer than the input |
| Rut.CleanConcat | src/App.tsx:716 | cleaning works character by character: cleaning a concatenation concatenates the cleaned parts |
| Rut.CleanAround | src/App.tsx:716 | a separator (any character other than a digit or `k`/`K`) disappears without affecting its neighbours |
| Rut.CleanOfClean | src/App.tsx:716 | text made only of digits and `K` is left unchanged |
| Rut.CleanIdempotent | src/App.tsx:716 | cleaning twice is cleaning once |
| Rut.CleanLowerK | src/App.tsx:716 | a lower-case `k` check character comes out upper-case |
| Rut.CleanDisplayExample | src/App.tsx:716 | `12.345.678-5` cleans to `123456785` |
| Rut.ReverseReverse | src/App.tsx:724-726 | reversing twice restores the text, which the pipeline's two reversals rely on |
| Rut.StripZeros | src/App.tsx:723 | `replace(/^0+/, '') \|\| body` never lengthens the body and never empties a non-empty one |
| Rut.StripZerosIdempotent | src/App.tsx:723 | `replace(/^0+/, '') \|\| body` changes nothing the second time |
| Rut.StripZerosNonEmpty | src/App.tsx:723 | a non-empty body never becomes empty; only leading zeros are removed and the rest is a suffix of the body; a result that still starts with a zero is a body made only of zeros, kept whole |
| Rut.GroupFromRight | src/App.tsx:724-726 | grouping never shortens the body, and gives the empty text only for the empty body |
| Rut.GroupBody | src/App.tsx:724-726 | reversing, cutting into chunks of three, joining with dots and reversing back is grouping by thousands counted from the right |
| Rut.GroupLength | src/App.tsx:724-726 | grouping adds one dot per full group of three beyond the first |
| Rut.GroupDots | src/App.tsx:724-726 | in the grouped body a dot stands exactly every fourth position, counted from the right |
| Rut.CleanGroup | src/App.tsx:716 | cleaning the grouped body gives the body back |
| Rut.GroupExample | src/App.tsx:724-726 | `12345678` groups as `12.345.678` |
| Rut.Format | src/App.tsx:718-728 | the display form is empty exactly when nothing survives cleaning |
| Rut.FormatShape | src/App.tsx:718-728 | empty input formats to empty text, one character formats to itself, and longer input formats as the grouped body (leading zeros stripped), a dash and the check character |
| Rut.FormatEmpty | src/App.tsx:720 | input with nothing to keep formats to the empty string |
| Rut.FormatSingle | src/App.tsx:718-728 | a single kept character is shown alone, with no dash |
| Rut.FormatWithCheck | src/App.tsx:721-727 | with two or more characters, the last is the check character after a dash |
| Rut.CleanFormat | src/App.tsx:716-728 | cleaning the formatted text gives the zero-stripped body followed by the check character |
| Rut.FormatOfClean | src/App.tsx:718-728 | a clean body without leading zero, plus a check character, formats to the grouped body, a dash and that character |
| Rut.FormatIdempotent | src/App.tsx:718-728 | formatting the formatted text changes nothing, for every input |
| Rut.FormatExample | src/App.tsx:718-728 | `123456785` formats to `12.345.678-5` |
| Rut.FormatSingleExample | src/App.tsx:718-728 | `5` formats to `5` |
| Rut.CleanDisplay | src/App.tsx:716 | cleaning a display form gives the body and the check character back |
| Rut.IsValidRut | src/App.tsx:730-744 | a valid RUT has at least a body and a check character, and no `K` in its body |
| Rut.CheckChar | src/App.tsx:741-742 | the computed check character is always a digit or `K` |
| Rut.ParseDigit | src/App.tsx:738 | `parseInt` of one character is a number exactly for a digit, and `NaN` otherwise |
| Rut.ComputedDv | src/App.tsx:741-742 | a finite sum gives the one-character check of `11 - sum % 11`; a `NaN` sum gives text that never equals one character |
| Rut.NumberSumMeaning | src/App.tsx:734-740 | the weighted sum is finite exactly when the body is all digits, and is then the specification's sum |
| Rut.WeightNext | src/App.tsx:739 | `mul === 7 ? 2 : mul + 1` steps through the weights 2..7 of the specification |
| Rut.WeightedSum | src/App.tsx:734-740 | the loop over the reversed body computes the specification's sum, or `NaN` when a non-digit (`K`) is in the body |
| Rut.ValidateRut | src/App.tsx:730-744 | the validator answers exactly `IsValidRut`; fewer than two kept characters never validate; a valid RUT has no `K` in its body |
| Rut.FinalComparison | src/App.tsx:741-743 | comparing the computed check with the upper-cased last character decides `IsValidRut` |
| Rut.ValidateAfterFormat | src/App.tsx:718-744 | formatting a field on every keystroke never changes whether it validates |
| Rut.BodySumLeadingZeros | src/App.tsx:723 | leading zeros add nothing to the sum, so stripping them keeps the check character |
| Rut.StripKeepsSum | src/App.tsx:723 | stripping the leading zeros of a body keeps it all digits or not, and keeps its weighted sum |
| Rut.CheckCharDecides | src/App.tsx:730-744 | a digit body with any check character validates exactly when that character, upper-cased, is the one computed |
| Rut.DisplayCheckDecides | src/App.tsx:718-744 | the same for the display form with dots and a dash |
| Rut.CompletedRutValid | src/App.tsx:718-744 | every digit body completed with its computed check character validates, before and after formatting |
| Rut.BodySumExample | src/App.tsx:734-742 | `12345678` sums to 138, whose check character is `5` |
| Rut.PlaceholderValid | src/App.tsx:1030-1037 | the placeholder `12.345.678-5` is a valid RUT |
| Rut.PlaceholderWrongCheck | src/App.tsx:730-744 | `12.345.678-4` is not |
| TimeWindow.TimeToMinutes | src/App.tsx:689-693 | a parsed time is less than 24 hours of minutes |
| TimeWindow.TimeToMinutesMeaning | src/App.tsx:689-693 | a string parses exactly when it is five characters, two digits, a colon and two digits, with hour at most 23 and minute at most 59; the value is hours × 60 + minutes |
| TimeWindow.EmptyNeverParses | src/App.tsx:690-691 | the empty string gives `NaN` |
| TimeWindow.ParseFormat | src/App.tsx:689-693 | every time of day written as `HH:MM` parses back to itself |
| TimeWindow.FormatParse | src/App.tsx:689-693 | every string that parses is the `HH:MM` writing of its value, so the parser accepts one spelling per time |
| TimeWindow.ValidateTimeRange | src/App.tsx:695-701 | invalid exactly when both times parse and "Desde" is not earlier than "Hasta", and then with the source's message; empty or unparseable sides pass |
| TimeWindow.SameTimeRejected | src/App.tsx:700 | no parseable time is a valid "Hasta" for itself |
| TimeWindow.ClockOrder | src/App.tsx:692 | comparing minutes since midnight is comparing hours, then minutes |
| TimeWindow.TimeOptionsMinutes | src/App.tsx:659-663 | slot `i` of the options is 9:00 plus `i` half hours |
| TimeWindow.TimeOptionsAscending | src/App.tsx:659-663 | the options parse and are strictly ascending |
| TimeWindow.Later | src/App.tsx:705 | the filter never lengthens the list, and keeps a first option later than "Desde" at the front |
| TimeWindow.LaterMembers | src/App.tsx:705 | the filter keeps exactly the options that parse to a time later than "Desde" |
| TimeWindow.LaterSubsequence | src/App.tsx:705 | the filter keeps the options' order |
| TimeWindow.LaterKeepsAll | src/App.tsx:705 | when every option is later, nothing is dropped |
| TimeWindow.LaterOfAscending | src/App.tsx:705 | filtering an ascending list leaves a tail of it |
| TimeWindow.FilteredTimeToOptions | src/App.tsx:703-706 | an empty or unparseable "Desde" offers every slot; with a parseable one, a slot is offered exactly when choosing it passes `validateTimeRange` |
| TimeWindow.FilteredOrder | src/App.tsx:703-706 | the offered slots are a tail of `timeOptions`, in its order |
| TimeWindow.ClearedTimeTo | src/App.tsx:708-713 | the effect leaves "Hasta" as it is or clears it, and leaves it exactly when the range is valid |
| TimeWindow.ClearedIsValid | src/App.tsx:708-713 | after the effect the range is valid, and running it again changes nothing |
| TimeWindow.ParseExamples | src/App.tsx:689-693 | `09:30` is 570, `23:59` is 1439; `24:00`, `9:30` and `12:60` are `NaN` |
| Phone.KeepDigitsShape | src/App.tsx:1260 | `replace(/\D/g, '')` leaves only digits and never lengthens |
| Phone.KeepDigitsOfDigits | src/App.tsx:1260 | a string of digits is left unchanged |
| Phone.Take | src/App.tsx:1261 | `slice(0, n)` is the prefix of length at most `n` |
| Phone.PhoneNormalized | src/App.tsx:1259-1264 | the normalised field holds the first nine digits typed, all digits, first one 9, the rest as typed |
| Phone.NormalizePhone | src/App.tsx:1259-1270 | the keystroke reassignments give `PhoneNormalized`; the correction flag is raised exactly when the first digit typed was not 9 |
| Phone.NormalizeIdempotent | src/App.tsx:1259-1264 | normalising a normalised field changes nothing and corrects nothing |
| Phone.ValidatePhone | src/App.tsx:1273-1278 | valid exactly when the digits are nine and start with 9; the length message takes precedence over the prefix message |
| Phone.ValidateAdditionalPhone | src/App.tsx:1323-1329 | the additional field may be empty; otherwise it follows the same rule, with its own length message |
| Phone.NormalizedValidation | src/App.tsx:1259-1278 | a normalised field is valid exactly when at least nine digits were typed, and never fails for its first digit |
| Phone.SubmittedDigits | src/App.tsx:837-838 | what is sent is digits only, at most nine |
| Phone.SubmitNormalized | src/App.tsx:837-838 | a normalised field is sent as shown |
| Phone.SubmitValid | src/App.tsx:837-838 | a field that passed its validator is sent as its nine digits |
| Phone.PhoneInput.constructor | src/App.tsx:246-247 | a field starts empty, with no notice shown |
| Phone.PhoneInput.OnChange | src/App.tsx:1258-1272 | the field holds the normalised value; the notice is shown only the first time a 9 is forced, and the flag keeps that |
| InstallDates.Remove | src/App.tsx:748 | `filter(d => d !== date)` keeps exactly the other dates |
| InstallDates.ToggleDate | src/App.tsx:746-752 | toggling flips the selection of the date and of no other |
| InstallDates.RemoveAbsent | src/App.tsx:748 | filtering out an absent date changes nothing |
| InstallDates.RemoveConcat | src/App.tsx:748 | filtering distributes over concatenation |
| InstallDates.ToggleKeepsOthers | src/App.tsx:746-752 | the other selected dates keep their order |
| InstallDates.ToggleAppends | src/App.tsx:750 | a new date goes to the end |
| InstallDates.RemoveNoDuplicates | src/App.tsx:748 | filtering keeps a list free of duplicates |
| InstallDates.ToggleNoDuplicates | src/App.tsx:746-752 | toggling never makes a date appear twice |
| InstallDates.ToggleTwice | src/App.tsx:746-752 | selecting then deselecting a date restores the selection |
| InstallDates.ValidDateOffsets | src/App.tsx:637-655 | the loop lists the offered day offsets |
| InstallDates.WorkdaysMembers | src/App.tsx:646-651 | an offset is listed exactly when it is in range and falls Monday to Friday |
| InstallDates.WorkdaysIncreasing | src/App.tsx:646-653 | offsets are listed in increasing order |
| InstallDates.WorkdaysSplit | src/App.tsx:646-653 | listing a range is listing its two halves |
| InstallDates.WorkdaysLength | src/App.tsx:646-653 | each further day adds one entry exactly when it is a workday |
| InstallDates.NextDay | src/App.tsx:647-652 | the weekday after Saturday is Sunday, otherwise the next |
| InstallDates.WeekHasFive | src/App.tsx:648 | any seven consecutive days hold five workdays |
| InstallDates.WeekOfWorkdays | src/App.tsx:646-653 | any week of offsets lists five days |
| InstallDates.Offered | src/App.tsx:637-655 | whatever day today is, ten days are offered; a day is offered exactly when it lies between tomorrow and two weeks ahead and is Monday to Friday; they come in increasing order |
| Address.GetComponent | src/App.tsx:394-395 | an answer is the name of a component that carries every requested type |
| Address.GetComponentFirst | src/App.tsx:394-395 | the lookup answers with the first component carrying every requested type |
| Address.GetComponentNone | src/App.tsx:394-395 | the lookup answers nothing exactly when no component matches |
| Address.Or | src/App.tsx:397-399 | `a \|\| b` is truthy exactly when one side is |
| Address.CityOf | src/App.tsx:397-398 | the locality when truthy, else the second administrative level when truthy, else the first administrative level; the city is truthy exactly when one of the three candidates is |
| Address.NeighborhoodOf | src/App.tsx:399 | the sublocality when truthy, else the neighbourhood when truthy, else the first sublocality level; the value is truthy exactly when one of the three candidates is |
| Address.FallbackPriority | src/App.tsx:397-399 | the first truthy candidate wins, in order |
| Address.CityFromLocality | src/App.tsx:397-398 | a named locality decides the city |
| Address.StreetPart | src/App.tsx:389 | the street is never longer than the formatted address and holds no comma |
| Address.StreetPartMeaning | src/App.tsx:389 | the street is the longest comma-free prefix of the formatted address |
| Address.StreetPartIdempotent | src/App.tsx:389 | taking the street part twice is taking it once |
| Address.StreetPartOfCommaFree | src/App.tsx:389 | an address without a comma is kept whole |
| Address.StreetPartAt | src/App.tsx:389 | the street stops at the first comma |
| Address.SetIfTruthy | src/App.tsx:402-404 | a truthy value is written; a field changes only for a truthy value, so one with content is never emptied and an empty one is filled exactly when the value is truthy |
| Address.FillIdempotent | src/App.tsx:387-404 | filling twice from the same place is filling once |
| Address.FillFromPlace | src/App.tsx:387-404 | a formatted address writes its street part (the text before the first comma) and otherwise the street is kept; city, neighbourhood and postal code take the place's truthy value and otherwise keep what the user typed |
| Geolocation.FetchGoogleGeolocation | src/App.tsx:480-502 | a location is found exactly when there is an API key and an answer with an OK status whose body carries a location, and it is that location |
| Geolocation.FetchIPLocation | src/App.tsx:505-517 | a location is found only for an OK answer with a JSON body, and then exactly when both coordinates (`latitude` else `lat`, `longitude` else `lon`) come out finite; it is those coordinates |
| Geolocation.PresentFieldShadows | src/App.tsx:510-512 | a present but non-numeric `latitude` hides `lat`, and the lookup fails |
| Geolocation.IPLocationMeaning | src/App.tsx:510-512 | without `latitude` and `longitude` the lookup reads `lat` and `lon` |
| Geolocation.FirstFound | src/App.tsx:536-591 | the location found is the answer of one of the sources in the chain |
| Geolocation.Consulted | src/App.tsx:536-591 | at least one source and at most the whole chain is consulted, the whole chain when none answers |
| Geolocation.ConsultedStopsAtFirst | src/App.tsx:536-591 | the sources consulted are a prefix of the chain; all of them but the last failed; the last is the one that answered, and all were consulted when none did |
| Geolocation.Chain | src/App.tsx:536-591 | the order is precise GPS, coarse GPS, Google, IP |
| Geolocation.ChainHigh | src/App.tsx:546-547 | a precise GPS answer ends the chain at once |
| Geolocation.FallbackOfChain | src/App.tsx:549-591 | a failed precise GPS hands over to the fallbacks |
| Geolocation.FallbackLow | src/App.tsx:560-563 | a coarse GPS answer ends the fallbacks |
| Geolocation.FallbackGoogle | src/App.tsx:569-575 | after the coarse GPS fails, a Google answer ends them |
| Geolocation.FallbackIp | src/App.tsx:581-588 | after three failures the IP lookup is consulted whatever it answers |
| Geolocation.LaterTiersNeverAsked | src/App.tsx:536-591 | no source after the one that answered is consulted; no location means four failures and four sources consulted |
| Geolocation.OutcomeToasts | src/App.tsx:583-588 | one error when no source answered; otherwise exactly the success notice of the source that answered, followed by the approximate-location warning exactly when that source is the IP lookup |
| Geolocation.LocationForm.constructor | src/App.tsx:92 | the form starts idle, with nothing located |
| Geolocation.LocationForm.ReverseGeocodeAndFill | src/App.tsx:374-411 | the address fields are filled from the first place; coordinates are stored on success and on a geocoder error, but not without a geocoder or a place |
| Geolocation.LocationForm.ProcessFoundLocation | src/App.tsx:524-534 | geocodes, then shows the success notice of its source |
| Geolocation.LocationForm.HandleUseGeolocation | src/App.tsx:520-595 | the sources consulted, the notifications, the fields and the coordinates are those of the specification chain, and `isLocating` is false at the end |
| Geolocation.LocationForm.AfterGpsFailure | src/App.tsx:549-591 | the sources consulted, the notifications, the fields and the coordinates are those of the fallback chain; `isLocating` is cleared by the coarse-GPS and Google returns and otherwise left to the caller |
| Uploads.IsAllowedImage | src/App.tsx:143-148 | a file is accepted exactly when there is one and its MIME type is allowed or its name ends in `.jpg`, `.jpeg` or `.png` in any case |
| Uploads.LowerAll | src/App.tsx:147 | the case folding of the `i` flag, character by character |
| Uploads.ExtensionPattern | src/App.tsx:147 | `/\.(jpe?g\|png)$/i` accepts exactly the names ending in `.jpg`, `.jpeg` or `.png` in any case |
| Uploads.EndsWithJpg | src/App.tsx:147 | `.jpg` matched from the end, letter by letter |
| Uploads.EndsWithPng | src/App.tsx:147 | `.png` matched from the end, letter by letter |
| Uploads.EndsWithJpeg | src/App.tsx:147 | `.jpeg` matched from the end, letter by letter |
| Uploads.AnyStemAccepted | src/App.tsx:143-148 | any name ending in an accepted extension, in any case, is accepted whatever its type |
| Uploads.OtherNamesRefused | src/App.tsx:143-148 | a disallowed type whose name does not end in `g` is refused |
| Uploads.OrDimension | src/App.tsx:159-160 | `naturalWidth \|\| width`: one of the two sizes, the natural one when it is known, and zero only when both are |
| Uploads.CheckImageResolution | src/App.tsx:154-170 | passes exactly when the loaded image is at least the minimum in both dimensions; a load error is 0×0 and fails |
| Uploads.ResolutionMonotone | src/App.tsx:162 | lowering the thresholds never fails an image that passed |
| Uploads.DefaultThresholds | src/App.tsx:151-162 | with the form's thresholds, a passing image is at least 800×600 |
| Uploads.OnUpload | src/App.tsx:172-237 | a file is kept under its own name exactly when it is an allowed image of enough resolution and, for the back, after the front; a wrong type is refused first; an allowed image below the resolution is refused with its measured size; "front missing" exactly for an allowed back of enough resolution without the front; nothing happens exactly when no file was chosen |
| Uploads.BrokenImageRefused | src/App.tsx:164-167 | an allowed image that fails to load is refused as 0×0 |
| Submit.SubmitChecks | src/App.tsx:764-822 | proceeds exactly when the fields are valid, a date is chosen, a plan is chosen and the time range is valid; otherwise it stops with one of the three messages or the field failure |
| Submit.FirstFailureWins | src/App.tsx:790-822 | dates are checked before the plan, and the plan before the time window |
| Submit.OnlyDatesBlockValidForm | src/App.tsx:790-822 | when the field validation covers the declared rules (plan and times required, each time validated against the other), only the dates can stop a validated submission |
| Submit.OfferedEndTimePasses | src/App.tsx:811-821 | a "Hasta" picked from the offered list never stops the submission |
| Submit.ClearedEndTimePasses | src/App.tsx:811-821 | nor does one left by the clearing effect |

## Left out

- The map: loading the Google Maps script, the mini map and its marker, the address autocomplete, and the coordinates written by `fillAddressForm` (`toFixed(6)` on floating-point numbers). Only the address fields a place fills are modelled.
- Devices and the network. What the device location service, the Google geolocation service, the IP lookup and the geocoder answer are inputs of the handler; timeouts, permissions and JSON parsing are not modelled.
- Coordinates are real numbers, not JavaScript doubles; the 6-decimal display string is not modelled.
- Geolocation.LocationForm.HandleUseGeolocation: `processFoundLocation` is taken not to throw. A throw from it after the precise GPS answered would fall through to the coarse GPS, and the `'Error al detectar ubicación. Ingrésala manualmente.'` branch is reached only through such a throw, so neither is modelled.
- Geolocation.LocationForm.HandleUseGeolocation: the button's guard against a second press while `isLocating` is in the rendering code and is not modelled; the method does not require `!isLocating`.
- Address: component `types` are assumed to be lists. A malformed geocoder answer that would throw `TypeError` is not modelled.
- Geolocation.FetchIPLocation: `body.lon ?? body.lon` reads the same field twice, which changes nothing, so it is written once.
- InstallDates.ValidDateOffsets: dates are day offsets from today, and today's weekday is a parameter. `toISOString`, time zones and the `{date, formatted}` records are not modelled.
- Uploads.CheckImageResolution: image decoding and object URLs are left out. How the image loads is an input.
- Uploads.OnUpload: the error texts with interpolated sizes, the clearing of the file input, the error fields and the notifications are left out. A rejection carries its reason and the measured size instead.
- Submit.SubmitChecks: the form library's `trigger()` is an input, and so is the summary of field errors it produces. The request, its fields, the backend answer and the status flags are left out.
- The time-select dropdown widget, the coupon upload, `onBlur` notifications, scrolling and the plan list are left out as presentation.
- Integers are unbounded. The sums of the RUT check are far below JavaScript's exact-integer range for any input a form field holds.
