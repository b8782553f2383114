/**
 * The data path of the health-check edit form: the stored health check
 * becomes the form's default values, and the submitted form becomes the
 * update request. Channel id 0 is the "None" option, and any id that is not
 * positive is sent as `null`.
 */
module HealthCheckEditForm {
  import opened JsValues

  /** The fields of a stored health check that the form reads. */
  datatype HealthCheck = HealthCheck(
    id: int,
    interval: int,
    notificationCooldown: int,
    notificationChannelId: Nullable<int>)

  datatype NotificationChannel = NotificationChannel(id: int, name: string, kind: string)

  /** The sentinel radio option that stands for "no notification channel". */
  const NoNotificationChannel: NotificationChannel := NotificationChannel(0, "None", "None")

  /**
   * What the channel field holds at run time: the number it was given as a
   * default, or the option's string value once a radio button is picked.
   */
  datatype FieldValue = Number(n: int) | Text(t: string)

  datatype FormFields = FormFields(
    interval: int,
    notificationChannelId: Optional<FieldValue>,
    notificationCooldown: int)

  /** The argument passed to `updateHealthCheck`. */
  datatype UpdateHealthCheckRequest = UpdateHealthCheckRequest(
    id: int,
    notificationChannelId: Nullable<int>,
    notificationCooldown: int,
    interval: int)

  /** `value.toString()`. */
  function FieldText(v: FieldValue): string {
    match v
    case Number(n) => IntToString(n)
    case Text(t) => t
  }

  /**
   * `value?.toString() ?? "0"`: the text the radio group selects, and the
   * text the submit handler parses. Its meaning for callers is carried by
   * the radio-selection lemmas and `SubmittedChannelId` below; the contract
   * itself only ties the `"0"` default to the sentinel's id.
   */
  function ChannelText(field: Optional<FieldValue>): (t: string)
    ensures field.Undefined? ==> t == IntToString(NoNotificationChannel.id)
    ensures field.Defined? ==> t == FieldText(field.value)
  {
    match field
    case Undefined => "0"
    case Defined(v) => FieldText(v)
  }

  /** The form's default values: a stored `null` channel becomes `undefined`. */
  function DefaultValues(hc: HealthCheck): (f: FormFields)
    ensures f.interval == hc.interval && f.notificationCooldown == hc.notificationCooldown
    ensures f.notificationChannelId.Undefined? <==> hc.notificationChannelId.Null?
    ensures hc.notificationChannelId.NonNull? ==>
      f.notificationChannelId == Defined(Number(hc.notificationChannelId.value))
  {
    FormFields(
      hc.interval,
      match hc.notificationChannelId
      case Null => Undefined
      case NonNull(n) => Defined(Number(n)),
      hc.notificationCooldown)
  }

  /** The radio option values: the sentinel first, then every channel, each as `id.toString()`. */
  function RadioOptions(channels: seq<NotificationChannel>): (opts: seq<string>)
    ensures |opts| == |channels| + 1
    ensures opts[0] == IntToString(NoNotificationChannel.id)
    ensures forall i :: 0 <= i < |channels| ==> opts[i + 1] == IntToString(channels[i].id)
  {
    seq(|channels| + 1, i requires 0 <= i <= |channels| =>
      if i == 0 then IntToString(NoNotificationChannel.id) else IntToString(channels[i - 1].id))
  }

  /** `channelId > 0 ? channelId : null`, where `NaN > 0` is false. */
  function ChannelIdFromText(t: string): (c: Nullable<int>)
    ensures c.NonNull? <==> ParseInt(t).Num? && ParseInt(t).value > 0
    ensures c.NonNull? ==> c.value == ParseInt(t).value
  {
    var channelId := ParseInt(t);
    if channelId.Num? && channelId.value > 0 then NonNull(channelId.value) else Null
  }

  /** The channel id the submit handler sends for the field's value. */
  function SubmittedChannelId(field: Optional<FieldValue>): (c: Nullable<int>)
    ensures c.NonNull? ==> c.value > 0
    ensures field.Undefined? ==> c == Null
    ensures field.Defined? && field.value.Number? ==>
      c == if field.value.n > 0 then NonNull(field.value.n) else Null
  {
    ParseIntOfIntToString(if field.Defined? && field.value.Number? then field.value.n else NoNotificationChannel.id);
    ChannelIdFromText(ChannelText(field))
  }

  /** The request built from a submitted form. */
  function UpdateRequest(hc: HealthCheck, data: FormFields): (r: UpdateHealthCheckRequest)
    ensures r.id == hc.id
    ensures r.interval == data.interval && r.notificationCooldown == data.notificationCooldown
    ensures r.notificationChannelId == SubmittedChannelId(data.notificationChannelId)
  {
    UpdateHealthCheckRequest(
      hc.id,
      SubmittedChannelId(data.notificationChannelId),
      data.notificationCooldown,
      data.interval)
  }

  /** Submitting the unedited defaults writes back exactly what was stored. */
  lemma UneditedSubmitRoundTrip(hc: HealthCheck)
    requires hc.notificationChannelId.Null? || hc.notificationChannelId.value > 0
    ensures UpdateRequest(hc, DefaultValues(hc)) ==
      UpdateHealthCheckRequest(hc.id, hc.notificationChannelId, hc.notificationCooldown, hc.interval)
  {
  }

  /** A stored id that is not positive does not survive an unedited submit. */
  lemma UneditedSubmitClearsNonPositiveId(hc: HealthCheck)
    requires hc.notificationChannelId.NonNull? && hc.notificationChannelId.value <= 0
    ensures UpdateRequest(hc, DefaultValues(hc)).notificationChannelId == Null
  {
  }

  /** With no stored channel the radio group selects the "None" option. */
  lemma NoStoredChannelSelectsNone(hc: HealthCheck, channels: seq<NotificationChannel>)
    requires hc.notificationChannelId.Null?
    ensures ChannelText(DefaultValues(hc).notificationChannelId) == RadioOptions(channels)[0] == "0"
  {
  }

  /** A stored channel selects that channel's radio option. */
  lemma StoredChannelSelectsItsOption(hc: HealthCheck, channels: seq<NotificationChannel>, i: nat)
    requires i < |channels| && hc.notificationChannelId == NonNull(channels[i].id)
    ensures ChannelText(DefaultValues(hc).notificationChannelId) == RadioOptions(channels)[i + 1]
  {
  }

  /**
   * Picking radio option `i` sends `null` for the "None" option and for a
   * channel whose id is not positive, and the channel's own id otherwise.
   */
  lemma PickedOptionIsSubmitted(channels: seq<NotificationChannel>, i: nat)
    requires i < |channels| + 1
    ensures SubmittedChannelId(Defined(Text(RadioOptions(channels)[i]))) ==
      if i == 0 || channels[i - 1].id <= 0 then Null else NonNull(channels[i - 1].id)
  {
    if i == 0 {
      ParseIntOfIntToString(NoNotificationChannel.id);
    } else {
      ParseIntOfIntToString(channels[i - 1].id);
    }
  }
}
