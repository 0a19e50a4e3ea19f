/** Layout constants and the category order (js/constants.js). */
module Constants {

  /** LEFT_START_PAD_DAYS: days of margin before the earliest start. */
  const LeftStartPadDays: int := 7

  /** ROW_H: the height of one row, in pixels. */
  const RowH: int := 28

  /** BAR_H: the height of a task bar, in pixels. */
  const BarH: int := 20

  /** The category of milestones, drawn as stars rather than bars. */
  const Milestone: string := "マイルストーン"

  /** CATEGORY_ORDER: the categories drawn first, in this order. */
  const CategoryOrder: seq<string> := [
    Milestone,
    "PMO",
    "活用 PoC① AIエージェント構築",
    "活用 PoC② CDP関連",
    "活用 PoC③ VoC分析",
    "データマネジメント①-体制構築",
    "データマネジメント②-ガバナンス",
    "データマネジメント③-セキュリティ",
    "データマネジメント④-メタデータ管理",
    "構築-基盤環境",
    "構築-データ整備・連携",
    "構築-データカタログ整備"
  ]

  /** The rank of every category not in CATEGORY_ORDER. */
  const Unlisted: int := 9999

  /** `catRank`: the position of a category in CATEGORY_ORDER, or 9999. */
  function CatRank(name: string): (r: int)
    ensures r == Unlisted <==> name !in CategoryOrder
    ensures r != Unlisted ==>
      0 <= r < |CategoryOrder| && CategoryOrder[r] == name && name !in CategoryOrder[..r]
  {
    RankIn(CategoryOrder, name)
  }

  /** `indexOf` on the category list, with 9999 for a miss. */
  function RankIn(order: seq<string>, name: string): (r: int)
    requires |order| < Unlisted
    ensures r == Unlisted <==> name !in order
    ensures r != Unlisted ==> 0 <= r < |order| && order[r] == name && name !in order[..r]
  {
    if order == [] then Unlisted
    else if order[0] == name then 0
    else
      var j := RankIn(order[1..], name);
      if j == Unlisted then Unlisted else j + 1
  }

  /** Every listed category ranks below every unlisted one, and milestones
      come first. */
  lemma ListedFirst(a: string, b: string)
    requires a in CategoryOrder && b !in CategoryOrder
    ensures CatRank(a) < |CategoryOrder| < CatRank(b)
    ensures CatRank(Milestone) == 0
  {
  }

  /** The listed categories are distinct, so each ranks at its own
      position and no two listed names share a rank. */
  lemma ListedRank(i: int)
    requires 0 <= i < |CategoryOrder|
    ensures CatRank(CategoryOrder[i]) == i
  {
    var r := CatRank(CategoryOrder[i]);
    if r < i {
      OrderDistinct(r, i);
    }
  }

  /** No category is listed twice. */
  lemma OrderDistinct(j: int, k: int)
    requires 0 <= j < k < |CategoryOrder|
    ensures CategoryOrder[j] != CategoryOrder[k]
  {
  }
}
