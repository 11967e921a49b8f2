/** `getAchievement`: the per-streak tier, checked highest first. */
module Achievements {
  import opened Options

  datatype Tier = Gold | Silver | Bronze

  /**
   * The object returned for a tier. The emoji fields hold the characters that
   * achievements.js actually contains: the UTF-8 bytes of the medal emoji
   * read back as Windows-1254 text.
   */
  datatype Achievement = Achievement(tier: Tier, name: string, emoji: string, hint: string)

  const GOLD := Achievement(Gold, "Gold", "\U{11F}\U{178}\U{A5}\U{2021}", "30+ day streak")
  const SILVER := Achievement(Silver, "Silver", "\U{11F}\U{178}\U{A5}\U{2C6}", "14+ day streak")
  const BRONZE := Achievement(Bronze, "Bronze", "\U{11F}\U{178}\U{A5}\U{2030}", "7+ day streak")

  function GetAchievement(streak: int): (r: Option<Achievement>)
    ensures streak >= 30 <==> r == Some(GOLD)
    ensures 14 <= streak < 30 <==> r == Some(SILVER)
    ensures 7 <= streak < 14 <==> r == Some(BRONZE)
    ensures streak < 7 <==> r == None
  {
    if streak >= 30 then Some(GOLD)
    else if streak >= 14 then Some(SILVER)
    else if streak >= 7 then Some(BRONZE)
    else None
  }

  /** A ranking of outcomes: null below Bronze below Silver below Gold. */
  function Rank(a: Option<Achievement>): nat {
    match a
    case None => 0
    case Some(x) => match x.tier case Bronze => 1 case Silver => 2 case Gold => 3
  }

  /** A longer streak never earns a lower tier. */
  lemma TierMonotone(a: int, b: int)
    requires a <= b
    ensures Rank(GetAchievement(a)) <= Rank(GetAchievement(b))
  {
  }
}
