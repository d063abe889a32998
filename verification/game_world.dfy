/** The shared gameplay context the rules act on: the world's membership,
    the HUD counters and the screens the game-over rule opens. The classes
    behind them are not part of this model; these stand-ins keep only the
    state the rules read and write. */
module GameWorld {

  /** The live entities, by identity. Adding a present entity or removing
      an absent one changes nothing. */
  class World {
    var entities: set<object>

    constructor ()
      ensures entities == {}
    {
      entities := {};
    }

    method Add(items: set<object>)
      modifies this
      ensures entities == old(entities) + items
    {
      entities := entities + items;
    }

    method Remove(item: object)
      modifies this
      ensures entities == old(entities) - {item}
    {
      entities := entities - {item};
    }
  }

  /** The HUD's counters. */
  class GamePlayHud {
    var lifes: int
    var scores: int

    constructor (lifes: int)
      ensures this.lifes == lifes && scores == 0
    {
      this.lifes := lifes;
      scores := 0;
    }
  }

  /** The screens the game-over rule can open. */
  datatype Screen = HighScorePrompt | GameOverMessage

  /** The screen manager, reduced to the screens added to it, oldest first. */
  class ScreenManager {
    var screens: seq<Screen>

    constructor ()
      ensures screens == []
    {
      screens := [];
    }

    method AddScreen(screen: Screen)
      modifies this
      ensures screens == old(screens) + [screen]
    {
      screens := screens + [screen];
    }
  }
}
