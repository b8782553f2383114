# OutlineAdmin: access-key validity chip and health-check edit form

A Dafny model of the two pieces of logic in OutlineAdmin's admin screens.

- **Dynamic access-key validity chip.** A key record plus the current
  instant become exactly one of five states. An explicit `expiresAt` always
  wins. Next comes "not started" (a validity period but no usage yet). Then
  "unlimited" (no validity period, or a period of 0). Then "expired" (the
  derived expiry date is at or before now). Everything else is "active",
  showing the `duration` text cell. That cell starts as `"..."`. The
  component's effect rewrites it every second, but only when an expiry date
  exists. The model has the ladder as a total function and the cell as a
  class with `Mount`, `Tick`, `Unmount` and `Render`.
- **Health-check edit form.** The stored health check becomes the form's
  default values. The submitted form becomes the `updateHealthCheck`
  request. The channel field uses a sentinel: the "None" option has id 0.
  A stored `null` becomes `undefined` in the form, which the radio group
  shows as `"0"`. On submit, `undefined` becomes `"0"`, the text is passed
  to `parseInt`, and any id that is not positive (including `NaN`) is sent
  as `null`.

Files:

- `js_values.dfy` (module `JsValues`): `null` and `undefined` as separate
  kinds of absence, the decimal `toString` of an integer, and `parseInt`.
  It proves that `parseInt(n.toString()) == n` for every integer.
- `validity_chip.dfy` (module `DynamicAccessKeyValidityChip`).
- `health_check_edit_form.dfy` (module `HealthCheckEditForm`).

Inputs and abstractions:

- Timestamps are integers: milliseconds since the epoch, which is how `Date`
  values compare.
- `now` (`new Date()`) is a parameter.
- The expiry date that `getDakExpiryDateBasedOnValidityPeriod` derives from
  the key is an input, `expiryDate: Nullable<Timestamp>`.
- `formatAsDuration` is an uninterpreted function value,
  `format: (Timestamp, Timestamp) -> string`. `Chip` holds it as a constant.
  `Tick(now)` writes `format(now, expiryDate)`.
- After the user picks a radio button, the channel field holds a string,
  because react-hook-form's `onChange` stores the option's value. Before
  that it holds the default number. So the field's value is
  `Number(n) | Text(t)`. This is why the submit handler parses
  `toString()` instead of using the value directly.

## Model

| member | source | states |
|---|---|---|
| `DynamicAccessKeyValidityChip.Validity` | src/components/dynamic-access-key-validity-chip.tsx:33-69 | For each of the five states, the exact inputs that produce it. Explicit(expiresAt) iff `expiresAt` is present, whatever the other fields are. NotStarted iff no `expiresAt`, no usage start and a truthy period. Unlimited iff no `expiresAt` and the period is absent or 0, whether or not usage started. Expired iff the earlier branches fail and `expiryDate` is present and `<= now` (equality is expired). Active, carrying the current duration cell, in every other case, including a missing `expiryDate`. The five conditions are disjoint and cover every input. |
| `DynamicAccessKeyValidityChip.ValidityOnlyExpiresOverTime` | src/components/dynamic-access-key-validity-chip.tsx:56-69 | At a later instant an Expired key stays Expired. A key Active later was Active earlier. Every non-Active state is the same at any later instant. So the only change over time is Active to Expired. |
| `DynamicAccessKeyValidityChip.ExpiresAtExpiryDate` | src/components/dynamic-access-key-validity-chip.tsx:56 | For a started key with a period, the state is Expired at the expiry instant itself and Active one millisecond before it. |
| `DynamicAccessKeyValidityChip.CellAfterAppend` | src/components/dynamic-access-key-validity-chip.tsx:22-27 | One more `updateDuration` run changes the cell exactly as a single refresh applied after all the earlier ones. |
| `DynamicAccessKeyValidityChip.CellUnchangedWithoutExpiry` | src/components/dynamic-access-key-validity-chip.tsx:19-20 | With no expiry date, the cell keeps its text through any sequence of update attempts. |
| `DynamicAccessKeyValidityChip.CellShowsLatestUpdate` | src/components/dynamic-access-key-validity-chip.tsx:22-27 | With an expiry date and at least one update, the cell is `formatAsDuration(last update instant, expiryDate)`. |
| `DynamicAccessKeyValidityChip.Chip.constructor` | src/components/dynamic-access-key-validity-chip.tsx:15 | The cell starts as `"..."`, no interval is registered, and nothing has been refreshed. |
| `DynamicAccessKeyValidityChip.Chip.Mount` | src/components/dynamic-access-key-validity-chip.tsx:19-27 | With no expiry date, the effect changes nothing and registers no interval. With one, it refreshes the cell at once and registers the interval. The class invariant, which ties the cell to the refresh history, is preserved. |
| `DynamicAccessKeyValidityChip.Chip.Tick` | src/components/dynamic-access-key-validity-chip.tsx:22-27 | While the interval is registered, a tick sets the cell to `formatAsDuration(now, expiryDate)` and records the refresh. With no interval, nothing changes. |
| `DynamicAccessKeyValidityChip.Chip.Unmount` | src/components/dynamic-access-key-validity-chip.tsx:29 | The cleanup clears the interval and keeps the invariant. |
| `DynamicAccessKeyValidityChip.Chip.Render` | src/components/dynamic-access-key-validity-chip.tsx:33-69 | A render returns the ladder's state for the current cell. An Active key with no expiry date shows `"..."` forever. An Active key with an expiry date shows the remaining time as of the latest refresh, and `"..."` before the first refresh. |
| `JsValues.NatToDecimal` | src/components/health-check-edit-form.tsx:128 | The decimal rendering of a natural number is non-empty, all digits and has no leading zero. |
| `JsValues.IntToString` | src/components/health-check-edit-form.tsx:128 | `id.toString()`: all digits for a non-negative id, and `-` followed by digits for a negative one. |
| `JsValues.ParseInt` | src/components/health-check-edit-form.tsx:46 | `parseInt` is NaN exactly when no digit follows the optional sign. Otherwise its sign follows the leading `-`. |
| `JsValues.ParseIntOfIntToString` | src/components/health-check-edit-form.tsx:46 | For every integer n, `parseInt(n.toString()) == n`. |
| `HealthCheckEditForm.ChannelText` | src/components/health-check-edit-form.tsx:46 | `value?.toString() ?? "0"`: an undefined field gives the text of the "None" sentinel's id (0). A defined one gives its own text. The radio group (line 124) uses the same expression. |
| `HealthCheckEditForm.DefaultValues` | src/components/health-check-edit-form.tsx:32-36 | `interval` and `notificationCooldown` are copied unchanged. The channel field is undefined exactly when the stored id is null. Otherwise it is the stored number. |
| `HealthCheckEditForm.RadioOptions` | src/components/health-check-edit-form.tsx:127-128 | One option per channel plus the sentinel in first place. The sentinel's value is `"0"` and option i+1 is channel i's `id.toString()`. |
| `HealthCheckEditForm.ChannelIdFromText` | src/components/health-check-edit-form.tsx:51 | The id is sent exactly when the parse gives a number greater than 0, and then it is sent unchanged. NaN, 0 and negatives become null. |
| `HealthCheckEditForm.SubmittedChannelId` | src/components/health-check-edit-form.tsx:46-51 | A sent id is always positive. An absent field sends null. A numeric field n sends n when n > 0 and null otherwise. |
| `HealthCheckEditForm.UpdateRequest` | src/components/health-check-edit-form.tsx:49-54 | The request carries `healthCheck.id`. It passes the submitted `interval` and `notificationCooldown` through unchanged, and its channel is the submitted channel id. |
| `HealthCheckEditForm.UneditedSubmitRoundTrip` | src/components/health-check-edit-form.tsx:35-51 | Submitting the unedited defaults gives back the stored record's id, interval, cooldown and channel id. This holds for a null channel and for a positive one. |
| `HealthCheckEditForm.UneditedSubmitClearsNonPositiveId` | src/components/health-check-edit-form.tsx:35-51 | A stored channel id that is 0 or negative comes back as null from an unedited submit. |
| `HealthCheckEditForm.NoStoredChannelSelectsNone` | src/components/health-check-edit-form.tsx:124-127 | With a stored null channel, the radio group's value is `"0"`, which is the "None" option placed first. |
| `HealthCheckEditForm.StoredChannelSelectsItsOption` | src/components/health-check-edit-form.tsx:124-128 | With a stored channel id, the radio group's value is that channel's option. |
| `HealthCheckEditForm.PickedOptionIsSubmitted` | src/components/health-check-edit-form.tsx:46-51 | Picking the "None" option sends null. Picking channel i's option sends that channel's id when the id is positive, and null when it is 0 or negative. |

## Left out

- Timers and React scheduling are not modelled. `setInterval`'s 1000 ms period and the re-running of the effect when `expiryDate` changes are not part of the model. Instead, each chip instance has a fixed key and expiry date, and `Tick` stands for one interval firing.
- `getDakExpiryDateBasedOnValidityPeriod` and `formatAsDuration` live in `src/core/utils`, which is not part of this model. The expiry date is an input and the formatter an uninterpreted function. Nothing is assumed about how either is computed.
- JsValues.ParseInt: does not model leading white space or the `0x` hexadecimal prefix of `parseInt`, because the texts parsed here are always integer renderings. It also does not model precision loss beyond 2^53.
- JsValues.IntToString: treats numbers as unbounded integers. Exponent notation for large numbers and `-0` are not modelled.
- `validityPeriod` truthiness is "present and not 0". `NaN` is not modelled.
- The `min={1}` / `max={10000}` attributes of the interval and cooldown inputs are browser hints, and the submit handler never re-checks them. The model passes both numbers through unchanged and does not restrict them.
- The `required` validators and `valueAsNumber` conversions are not modelled.
- The form only shows the radio group when at least one channel exists (line 117). Without it the field keeps its default. `RadioOptions` is stated for any list of channels.
- Presentation and I/O are not modelled: rendering, the error modal, `router.push`, and the await on `updateHealthCheck` and its failure path.
- The health check's other fields and the id's storage type are not modelled. The id is carried as an integer.
- The login form, the server-add form and the footer are not modelled. They are UI and foreign calls with no logic of their own.
- The periodic health monitor, its probes and the notification cooldown rule do not appear in these screens, so they are not modelled.

## Notes

- The ladder reads a missing `expiryDate` as Active, not Expired. When a started key with a period has no derived expiry date, the chip shows `"..."` forever, because the cell is never refreshed. `Chip.Render` states this.
- The expired chip (src/components/dynamic-access-key-validity-chip.tsx:56-62) carries no date. The active chip (lines 65-69) shows the last text written to the `duration` cell, not a value computed at render time. The model follows the code.
