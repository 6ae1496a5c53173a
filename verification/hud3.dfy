/** The boss health bar in the top row, and the gating of the in-game
    message line and the one-time tutorial messages. */
module Hud3 {
  import opened Words
  import Common
  import Arith

  /** DrawStatusIcon_1x1(source, x, y): one 8x8 status icon drawn at a tile
      position of the current draw page. */
  datatype Icon = Icon(source: int, x: nat, y: nat)

  /** The status icon of the bar piece n pixels wide (0 is the blank one,
      8 the full one). */
  function BarPiece(n: nat): int
  {
    Common.XyToOffset(n, 11)
  }

  const BAR_COLUMN: nat := 6
  const ERASED_COLUMNS: nat := 30

  function EraseBar(i: nat): (t: seq<Icon>)
    requires i <= ERASED_COLUMNS
    ensures |t| == ERASED_COLUMNS - i
    ensures forall k :: 0 <= k < |t| ==> t[k] == Icon(BarPiece(0), BAR_COLUMN + i + k, 0)
    decreases ERASED_COLUMNS - i
  {
    if i == ERASED_COLUMNS then [] else [Icon(BarPiece(0), BAR_COLUMN + i, 0)] + EraseBar(i + 1)
  }

  function FullPieces(i: nat, n: nat): (t: seq<Icon>)
    requires i <= n
    ensures |t| == n - i
    ensures forall k :: 0 <= k < |t| ==> t[k] == Icon(BarPiece(8), BAR_COLUMN + i + k, 0)
    decreases n - i
  {
    if i == n then [] else [Icon(BarPiece(8), BAR_COLUMN + i, 0)] + FullPieces(i + 1, n)
  }

  /** DrawBossHealthBar_Impl(health): erase the 30 bar columns, then for a
      positive health draw health / 8 full pieces and one piece health % 8
      pixels wide after them. */
  function DrawBossHealthBarImpl(health: sword): (t: seq<Icon>)
  {
    EraseBar(0) +
    if health > 0 then FullPieces(0, health / 8) + [Icon(BarPiece(health % 8), BAR_COLUMN + health / 8, 0)]
    else []
  }

  /** The piece width an icon source stands for. */
  function PieceWidth(source: int): nat
  {
    if 0 <= source - 11 * 320 < 72 && (source - 11 * 320) % 8 == 0 then (source - 11 * 320) / 8 else 0
  }

  function BarWidth(t: seq<Icon>): nat
  {
    if t == [] then 0 else PieceWidth(t[0].source) + BarWidth(t[1..])
  }

  lemma {:induction false} BarWidthAppend(a: seq<Icon>, b: seq<Icon>)
    ensures BarWidth(a + b) == BarWidth(a) + BarWidth(b)
  {
    if a != [] {
      assert (a + b)[0] == a[0] && (a + b)[1..] == a[1..] + b;
      BarWidthAppend(a[1..], b);
    } else {
      assert a + b == b;
    }
  }

  /** The piece n pixels wide stands for n pixels of bar. */
  lemma PieceWidthOfPiece(n: nat)
    requires n <= 8
    ensures PieceWidth(BarPiece(n)) == n
  {
    assert BarPiece(n) - 11 * 320 == 8 * n;
    Arith.ModUnique(8 * n, 8, n, 0);
    Arith.DivUnique(8 * n, 8, n, 0);
  }

  lemma {:induction false} FullPiecesWidth(i: nat, n: nat)
    requires i <= n
    ensures BarWidth(FullPieces(i, n)) == 8 * (n - i)
    decreases n - i
  {
    if i < n {
      FullPiecesWidth(i + 1, n);
      PieceWidthOfPiece(8);
    }
  }

  lemma {:induction false} EraseWidth(i: nat)
    requires i <= ERASED_COLUMNS
    ensures BarWidth(EraseBar(i)) == 0
    decreases ERASED_COLUMNS - i
  {
    if i < ERASED_COLUMNS {
      EraseWidth(i + 1);
    }
  }

  /** The pieces drawn after the erase add up to exactly `health` pixels,
      one pixel of bar per point of boss health; a health of 0 or less
      leaves only the erased bar. */
  lemma BossBarShowsHealth(health: sword)
    ensures BarWidth(DrawBossHealthBarImpl(health)) == if health > 0 then health else 0
  {
    var t := DrawBossHealthBarImpl(health);
    EraseWidth(0);
    if health > 0 {
      var full := FullPieces(0, health / 8);
      var last := [Icon(BarPiece(health % 8), BAR_COLUMN + health / 8, 0)];
      assert t == EraseBar(0) + (full + last);
      FullPiecesWidth(0, health / 8);
      BarWidthAppend(full, last);
      BarWidthAppend(EraseBar(0), full + last);
      PieceWidthOfPiece(health % 8);
      assert BarWidth(last) == health % 8 + BarWidth([]);
    } else {
      assert t == EraseBar(0) + [];
      assert EraseBar(0) + [] == EraseBar(0);
    }
  }

  /** The bar is drawn after the erase, left to right in consecutive columns
      from column 6, one column per 8 points of health plus the partial
      piece. */
  lemma BossBarLayout(health: sword)
    ensures var t := DrawBossHealthBarImpl(health);
      t[..ERASED_COLUMNS] == EraseBar(0) &&
      (health > 0 ==>
         |t| == ERASED_COLUMNS + health / 8 + 1 &&
         forall k :: ERASED_COLUMNS <= k < |t| ==> t[k].x == BAR_COLUMN + k - ERASED_COLUMNS)
  {
  }

  /** The erase covers every column the bar draws in only while health is
      below 240; from then on the partial piece lands beyond the erased
      columns and a shrinking bar leaves stale pieces behind. */
  lemma BossBarWithinErasedColumns(health: sword)
    requires health > 0
    ensures (forall k :: ERASED_COLUMNS <= k < |DrawBossHealthBarImpl(health)| ==>
               DrawBossHealthBarImpl(health)[k].x < BAR_COLUMN + ERASED_COLUMNS) <==> health < 240
  {
    BossBarLayout(health);
    var t := DrawBossHealthBarImpl(health);
    if health >= 240 {
      assert t[|t| - 1].x == BAR_COLUMN + health / 8;
    }
  }

  // ---------------------------------------------------------------------
  // HUD_DrawBossHealthBar
  // ---------------------------------------------------------------------

  datatype PageDraw = SetDrawPage(page: nat) | DrawIcon(icon: Icon)

  const LABEL_TILES: seq<int> := [
    Common.XyToOffset(21, 6), Common.XyToOffset(34, 6), Common.XyToOffset(38, 6), Common.XyToOffset(38, 6)]

  function Label(): (t: seq<PageDraw>)
  {
    seq(4, i requires 0 <= i < 4 => DrawIcon(Icon(LABEL_TILES[i], i + 1, 0)))
  }

  function Icons(t: seq<Icon>): (d: seq<PageDraw>)
    ensures |d| == |t|
    ensures forall k :: 0 <= k < |t| ==> d[k] == DrawIcon(t[k])
  {
    seq(|t|, k requires 0 <= k < |t| => DrawIcon(t[k]))
  }

  /** HUD_DrawBossHealthBar(health): marks the boss as active and draws the
      "BOSS" label and the bar on the displayed page, then on the other. */
  function DrawBossHealthBar(health: word, displayPage: nat): (r: (bool, seq<PageDraw>))
    requires displayPage <= 1
  {
    var page := Label() + Icons(DrawBossHealthBarImpl(AsSigned(health)));
    (true, [SetDrawPage(displayPage)] + page + [SetDrawPage(1 - displayPage)] + page)
  }

  /** The boss counts as activated afterwards, and both pages get the same
      drawing, one after the other. */
  lemma DrawBossHealthBarBothPages(health: word, displayPage: nat)
    requires displayPage <= 1
    ensures var (active, t) := DrawBossHealthBar(health, displayPage);
      var n := (|t| - 2) / 2;
      active && |t| == 2 * n + 2 &&
      t[0] == SetDrawPage(displayPage) && t[n + 1] == SetDrawPage(1 - displayPage) &&
      t[1..n + 1] == t[n + 2..]
  {
    var page := Label() + Icons(DrawBossHealthBarImpl(AsSigned(health)));
    SamePageTwice(SetDrawPage(displayPage), SetDrawPage(1 - displayPage), page);
  }

  lemma SamePageTwice(a: PageDraw, b: PageDraw, page: seq<PageDraw>)
    ensures var t := [a] + page + [b] + page;
      var n := (|t| - 2) / 2;
      |t| == 2 * n + 2 && n == |page| && t[0] == a && t[n + 1] == b &&
      t[1..n + 1] == page && t[n + 2..] == page
  {
    var t := [a] + page + [b] + page;
    assert (|t| - 2) / 2 == |page|;
    assert t[1..|page| + 1] == page;
    assert t[|page| + 2..] == page;
  }

  // ---------------------------------------------------------------------
  // ShowInGameMessage and ShowTutorial
  // ---------------------------------------------------------------------

  /** The message line: the message being printed (an index into the game's
      messages), how many characters are out, and the per-character delay. */
  datatype MessageLine = MessageLine(showingHintMachineMsg: bool, message: nat, charsPrinted: word, delay: word)

  /** ShowInGameMessage(message): ignored while a hint machine message is
      up and on the boss levels (above level 6); otherwise the message starts
      printing from its first character. */
  function ShowInGameMessage(m: MessageLine, level: word, message: nat): (m': MessageLine)
  {
    if m.showingHintMachineMsg || level > 6 then m
    else m.(message := message, charsPrinted := 1, delay := 0)
  }

  /** The message starts exactly when it is not gated. */
  lemma ShowInGameMessageGating(m: MessageLine, level: word, message: nat)
    ensures var m' := ShowInGameMessage(m, level, message);
      !(m.showingHintMachineMsg || level > 6) ==> m'.message == message && m'.charsPrinted == 1 && m'.delay == 0
    ensures m.showingHintMachineMsg || level > 6 ==> ShowInGameMessage(m, level, message) == m
  {
  }

  /** ShowTutorial(index, message): the first request for a tutorial marks
      it shown and starts its message; later ones do nothing. */
  function ShowTutorial(shown: seq<bool>, m: MessageLine, level: word, index: nat, message: nat): (r: (seq<bool>, MessageLine))
    requires index < |shown|
    ensures |r.0| == |shown|
  {
    if !shown[index] then (shown[index := true], ShowInGameMessage(m, level, message))
    else (shown, m)
  }

  /** A tutorial is marked shown afterwards, no other tutorial changes, and
      asking again has no further effect: each is offered at most once. */
  lemma ShowTutorialAtMostOnce(shown: seq<bool>, m: MessageLine, level: word, index: nat, message: nat, message2: nat)
    requires index < |shown|
    ensures var (shown', m') := ShowTutorial(shown, m, level, index, message);
      shown'[index] &&
      (forall k :: 0 <= k < |shown| && k != index ==> shown'[k] == shown[k]) &&
      ShowTutorial(shown', m', level, index, message2) == (shown', m')
  {
  }
}
