/** The fixed palettes the editor offers. */
module Colors {
  import opened LineupTypes

  /** A player colour choice: label, CSS class and hex value. */
  datatype PlayerColorChoice = PlayerColorChoice(labelText: string, value: string, hex: string)

  const PlayerColors: seq<PlayerColorChoice> := [
    PlayerColorChoice("Red", "bg-red-500", "#ef4444"),
    PlayerColorChoice("Blue", "bg-blue-500", "#3b82f6"),
    PlayerColorChoice("Green", "bg-green-500", "#22c55e"),
    PlayerColorChoice("Yellow", "bg-yellow-500", "#eab308"),
    PlayerColorChoice("Purple", "bg-purple-500", "#a855f7"),
    PlayerColorChoice("Orange", "bg-orange-500", "#f97316"),
    PlayerColorChoice("Pink", "bg-pink-500", "#ec4899"),
    PlayerColorChoice("Teal", "bg-teal-500", "#14b8a6"),
    PlayerColorChoice("Indigo", "bg-indigo-500", "#6366f1")
  ]

  const PitchColors: seq<PitchColor> := [
    PitchColor("Classic Green",
      "bg-gradient-to-br from-green-500 to-green-600", "bg-gradient-to-br from-green-500 to-green-600"),
    PitchColor("Light Green",
      "bg-gradient-to-br from-lime-500 to-lime-600", "bg-gradient-to-br from-lime-500 to-lime-600"),
    PitchColor("Ocean Blue",
      "bg-gradient-to-br from-sky-500 to-sky-600", "bg-gradient-to-br from-sky-500 to-sky-600"),
    PitchColor("Cadet Green",
      "bg-gradient-to-br from-emerald-600 to-emerald-700", "bg-gradient-to-br from-emerald-600 to-emerald-700"),
    PitchColor("Forest Green",
      "bg-gradient-to-br from-green-700 to-green-800", "bg-gradient-to-br from-green-700 to-green-800"),
    PitchColor("Emerald",
      "bg-gradient-to-br from-emerald-500 to-emerald-600", "bg-gradient-to-br from-emerald-500 to-emerald-600")
  ]
}
