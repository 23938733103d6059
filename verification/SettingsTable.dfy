/**
 * Company settings as the API presents them: a flat record of fields over rows addressed by section
 * and key, with a default for every field.
 */
module SettingsTable {
  import opened Wrappers

  datatype Json = Null | Bool(b: bool) | Number(n: int) | Text(s: string)

  /** A row is addressed by its section and key; the cache joins the two with a dot. */
  datatype Key = Key(section: string, name: string)

  type Rows = map<Key, Json>

  datatype Field =
    | NightShiftStart | NightShiftEnd | WeekStartDay | TimeFormat
    | NoShiftClockPolicy | LateGracePeriodMinutes | EarlyArrivalAllowedMinutes | PcTimeclockEnabled
    | TimeclockConfirmEnabled | NoShowReminderMinutes
    | ShiftConfirmEnabled | ShiftTemplateCodeEnabled | ImpliedWorkEnabled
    | AutoBreakEnabled | ShiftBreakEnabled
    | ApprovalServiceEnabled | ApprovalPrevStepReject | ApprovalUpperLineChange | ApprovalAllowZipUpload
    | ApprovalMobilePush | ApprovalEmailNotify | ApprovalUserDisplay

  /** A field name in a patch: one of the table, or any other. */
  datatype FieldName = Known(field: Field) | Unknown(name: string)

  /** A patch; an undefined value is None. */
  type Patch = map<FieldName, Option<Json>>

  function KeyOf(f: Field): Key {
    match f
    case NightShiftStart => Key("general", "night_work_start")
    case NightShiftEnd => Key("general", "night_work_end")
    case WeekStartDay => Key("general", "week_start_day")
    case TimeFormat => Key("general", "time_format")
    case NoShiftClockPolicy => Key("attendance", "allow_unscheduled")
    case LateGracePeriodMinutes => Key("attendance", "late_grace_minutes")
    case EarlyArrivalAllowedMinutes => Key("attendance", "clockin_before_shift_minutes")
    case PcTimeclockEnabled => Key("attendance", "pc_timeclock_enabled")
    case TimeclockConfirmEnabled => Key("attendance", "enable_confirmation")
    case NoShowReminderMinutes => Key("attendance", "no_show_reminder_minutes")
    case ShiftConfirmEnabled => Key("shift", "enable_confirmation")
    case ShiftTemplateCodeEnabled => Key("shift", "template_code_enabled")
    case ImpliedWorkEnabled => Key("shift", "deemed_work_enabled")
    case AutoBreakEnabled => Key("break", "auto_break_enabled")
    case ShiftBreakEnabled => Key("break", "shift_break_enabled")
    case ApprovalServiceEnabled => Key("approval", "enable_service")
    case ApprovalPrevStepReject => Key("approval", "enable_prev_step_reject")
    case ApprovalUpperLineChange => Key("approval", "upper_line_change")
    case ApprovalAllowZipUpload => Key("approval", "allow_zip_upload")
    case ApprovalMobilePush => Key("approval", "mobile_push")
    case ApprovalEmailNotify => Key("approval", "email_notify")
    case ApprovalUserDisplay => Key("approval", "user_display")
  }

  function DefaultOf(f: Field): (v: Json)
    ensures !v.Null?
  {
    match f
    case NightShiftStart => Text("22:00")
    case NightShiftEnd => Text("06:00")
    case WeekStartDay => Text("monday")
    case TimeFormat => Text("24h")
    case NoShiftClockPolicy => Text("always")
    case LateGracePeriodMinutes => Number(10)
    case EarlyArrivalAllowedMinutes => Number(30)
    case NoShowReminderMinutes => Text("1,10,30,60")
    case ApprovalUserDisplay => Text("name_nick")
    case ShiftTemplateCodeEnabled | ImpliedWorkEnabled | AutoBreakEnabled | ShiftBreakEnabled | ApprovalAllowZipUpload =>
      Bool(false)
    case _ => Bool(true)
  }

  // ── No two fields share a row ──

  predicate Marks(k: Key, sectionLength: nat, sectionFirst: char, nameLength: nat, nameFirst: char) {
    && |k.section| == sectionLength && k.section != [] && k.section[0] == sectionFirst
    && |k.name| == nameLength && k.name != [] && k.name[0] == nameFirst
  }

  function Mark(f: Field): (nat, char, nat, char) {
    match f
    case NightShiftStart => (7, 'g', 16, 'n')
    case NightShiftEnd => (7, 'g', 14, 'n')
    case WeekStartDay => (7, 'g', 14, 'w')
    case TimeFormat => (7, 'g', 11, 't')
    case NoShiftClockPolicy => (10, 'a', 17, 'a')
    case LateGracePeriodMinutes => (10, 'a', 18, 'l')
    case EarlyArrivalAllowedMinutes => (10, 'a', 28, 'c')
    case PcTimeclockEnabled => (10, 'a', 20, 'p')
    case TimeclockConfirmEnabled => (10, 'a', 19, 'e')
    case NoShowReminderMinutes => (10, 'a', 24, 'n')
    case ShiftConfirmEnabled => (5, 's', 19, 'e')
    case ShiftTemplateCodeEnabled => (5, 's', 21, 't')
    case ImpliedWorkEnabled => (5, 's', 19, 'd')
    case AutoBreakEnabled => (5, 'b', 18, 'a')
    case ShiftBreakEnabled => (5, 'b', 19, 's')
    case ApprovalServiceEnabled => (8, 'a', 14, 'e')
    case ApprovalPrevStepReject => (8, 'a', 23, 'e')
    case ApprovalUpperLineChange => (8, 'a', 17, 'u')
    case ApprovalAllowZipUpload => (8, 'a', 16, 'a')
    case ApprovalMobilePush => (8, 'a', 11, 'm')
    case ApprovalEmailNotify => (8, 'a', 12, 'e')
    case ApprovalUserDisplay => (8, 'a', 12, 'u')
  }

  lemma KeyHasMark(f: Field)
    ensures Marks(KeyOf(f), Mark(f).0, Mark(f).1, Mark(f).2, Mark(f).3)
  {
    match f
    case _ =>
  }

  lemma MarksDiffer(f: Field, g: Field)
    requires Mark(f) == Mark(g)
    ensures f == g
  {
  }

  lemma KeysDiffer(f: Field, g: Field)
    requires KeyOf(f) == KeyOf(g)
    ensures f == g
  {
    KeyHasMark(f);
    KeyHasMark(g);
    MarksDiffer(f, g);
  }
}
