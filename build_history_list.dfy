/** The build history table: the badge shown for a build status and the duration cell. */
module BuildHistoryList {
  import opened Text

  /** The badge variants the table uses. */
  datatype Variant = Default | Destructive | Secondary | Outline

  /** `getStatusBadgeVariant`: success, failure and in-progress each get their own badge; any other text the outline. */
  function StatusBadgeVariant(status: string): (v: Variant)
    ensures status == "成功" <==> v == Default
    ensures status == "失败" <==> v == Destructive
    ensures status == "进行中" <==> v == Secondary
    ensures v == Outline <==> status != "成功" && status != "失败" && status != "进行中"
  {
    match status
    case "成功" => Default
    case "失败" => Destructive
    case "进行中" => Secondary
    case _ => Outline
  }

  /** `record.duration || '-'`: a missing or empty duration shows as `-`, any other is shown as stored. */
  function DurationCell(duration: Option<string>): (cell: string)
    ensures cell != ""
    ensures duration.Some? && duration.value != "" ==> cell == duration.value
    ensures duration.None? || duration.value == "" ==> cell == "-"
  {
    if duration.Some? && duration.value != "" then duration.value else "-"
  }
}
