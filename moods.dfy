/** The sidebar's "I'm craving…" radio, identical in both app variants. The
    cuisine keyword each mood rewards differs between them and lives in each
    variant's module. */
module Moods {

  datatype Mood = Any | Comforting | Healthy | Adventurous

  /** The radio label, which is also the value a dish's `mood` field holds. */
  function MoodName(m: Mood): string {
    match m
    case Any => "Any"
    case Comforting => "Comforting"
    case Healthy => "Healthy"
    case Adventurous => "Adventurous"
  }
}
