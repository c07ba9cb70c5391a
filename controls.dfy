/**
 * The keyboard controls of the sandbox as a function of the event list of
 * one tick: number keys select a material, plus and minus grow and shrink
 * the brush, and a quit event stops the game and the rest of the list.
 */
module Controls {
  import opened Materials

  /** The events the input step reacts to; every other event is ignored. */
  datatype Event = Quit | KeyDown(key: int) | OtherEvent

  /** SDL key codes: the digits 1 .. 5 are consecutive, '=' / '+' is 61, '-' is 45. */
  const Key1: int := 49
  const KeyPlus: int := 61
  const KeyMinus: int := 45

  /** The part of the game state the controls change. */
  datatype Settings = Settings(brushSize: int, material: Material, running: bool)

  /** One key press; `materials` is the five-entry material table. */
  function OnKey(s: Settings, key: int, materials: seq<Material>): (t: Settings)
    requires |materials| == 5
    ensures t.running == s.running
    ensures Key1 <= key < Key1 + 5 ==> t.material == materials[key - Key1]
    ensures t.material != s.material ==> Key1 <= key < Key1 + 5
    ensures t.brushSize == s.brushSize + 1 <==> key == KeyPlus
    ensures t.brushSize == s.brushSize - 1 <==> key == KeyMinus && s.brushSize != 0
    ensures t.brushSize == s.brushSize || t.brushSize == s.brushSize + 1 || t.brushSize == s.brushSize - 1
    ensures s.brushSize >= 0 ==> t.brushSize >= 0
  {
    if Key1 <= key < Key1 + 5 then s.(material := materials[key - Key1])
    else if key == KeyPlus then s.(brushSize := s.brushSize + 1)
    else if key == KeyMinus && s.brushSize != 0 then s.(brushSize := s.brushSize - 1)
    else s
  }

  /** The events of one tick in order; a quit event ends the processing. */
  function OnEvents(s: Settings, events: seq<Event>, materials: seq<Material>): (t: Settings)
    requires |materials| == 5
    ensures t.material == s.material || t.material in materials
    ensures t.running ==> s.running
    decreases |events|
  {
    if events == [] then s
    else
      match events[0]
      case Quit => s.(running := false)
      case KeyDown(key) => OnEvents(OnKey(s, key, materials), events[1..], materials)
      case OtherEvent => OnEvents(s, events[1..], materials)
  }

  /** The brush size is never made negative. */
  lemma {:induction false} BrushNeverNegative(s: Settings, events: seq<Event>, materials: seq<Material>)
    requires |materials| == 5 && s.brushSize >= 0
    ensures OnEvents(s, events, materials).brushSize >= 0
    decreases |events|
  {
    if events != [] && events[0] != Quit {
      var next := if events[0].KeyDown? then OnKey(s, events[0].key, materials) else s;
      BrushNeverNegative(next, events[1..], materials);
    }
  }

  /** The game keeps running exactly when it was running and no quit event came. */
  lemma {:induction false} RunningUnlessQuit(s: Settings, events: seq<Event>, materials: seq<Material>)
    requires |materials| == 5
    ensures OnEvents(s, events, materials).running <==> s.running && Quit !in events
    decreases |events|
  {
    if events != [] && events[0] != Quit {
      assert events == [events[0]] + events[1..];
      var next := if events[0].KeyDown? then OnKey(s, events[0].key, materials) else s;
      RunningUnlessQuit(next, events[1..], materials);
    }
  }

  /** Events after the first quit event have no effect. */
  lemma {:induction false} QuitStopsProcessing(s: Settings, before: seq<Event>, after: seq<Event>, materials: seq<Material>)
    requires |materials| == 5 && Quit !in before
    ensures OnEvents(s, before + [Quit] + after, materials) == OnEvents(s, before, materials).(running := false)
    decreases |before|
  {
    if before != [] {
      assert (before + [Quit] + after)[1..] == before[1..] + [Quit] + after;
      var next := if before[0].KeyDown? then OnKey(s, before[0].key, materials) else s;
      QuitStopsProcessing(next, before[1..], after, materials);
    }
  }

  /** Each event changes the brush size by at most one. */
  lemma {:induction false} BrushMovesOneStepPerEvent(s: Settings, events: seq<Event>, materials: seq<Material>)
    requires |materials| == 5
    ensures s.brushSize - |events| <= OnEvents(s, events, materials).brushSize <= s.brushSize + |events|
    decreases |events|
  {
    if events != [] && events[0] != Quit {
      var next := if events[0].KeyDown? then OnKey(s, events[0].key, materials) else s;
      BrushMovesOneStepPerEvent(next, events[1..], materials);
    }
  }
}
