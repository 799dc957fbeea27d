/**
 * The playground page: the size of each card, the demo a card renders for
 * its kind, the grid or its placeholder, and the audio demo that keeps at
 * most one of its tracks playing.
 */
module PlaygroundGrid {
  import opened Content
  import opened Playground

  /**
   * A card's size: one of the four rotating slots of `cardSizes`, or the
   * fixed size of a 3D, video or audio card.
   */
  datatype CardSize = Slot(slot: nat) | Fixed3d | FixedVideo | FixedAudio

  /** The CSS classes of a size. */
  function SizeClasses(size: CardSize): string {
    match size
    case Fixed3d => "col-span-2 row-span-2 lg:col-span-2"
    case FixedVideo => "col-span-2 row-span-1 lg:col-span-1 lg:row-span-1"
    case FixedAudio => "col-span-2 row-span-1 sm:col-span-1"
    case Slot(k) =>
      if k == 0 then "col-span-2 row-span-2"
      else if k == 1 then "col-span-1 row-span-1"
      else if k == 2 then "col-span-2 row-span-1"
      else "col-span-1 row-span-2"
  }

  /** The length of `cardSizes`. */
  const SlotCount: nat := 4

  /** `getCardSize`: fixed sizes for "3d", "video" and "audio", else `cardSizes[index % 4]`. */
  function CardSizeOf(index: nat, kind: Value): (size: CardSize)
    ensures size.Slot? ==> size.slot < SlotCount
  {
    if kind == Str("3d") then Fixed3d
    else if kind == Str("video") then FixedVideo
    else if kind == Str("audio") then FixedAudio
    else Slot(index % SlotCount)
  }

  /**
   * The three media kinds get their size whatever the position; every
   * other kind takes the slot of its position, a pattern that repeats
   * every four cards and visits all four slots.
   */
  lemma CardSizeMeaning(index: nat, kind: Value)
    ensures kind == Str("3d") ==> CardSizeOf(index, kind) == CardSizeOf(0, kind) == Fixed3d
    ensures kind == Str("video") ==> CardSizeOf(index, kind) == CardSizeOf(0, kind) == FixedVideo
    ensures kind == Str("audio") ==> CardSizeOf(index, kind) == CardSizeOf(0, kind) == FixedAudio
    ensures CardSizeOf(index + SlotCount, kind) == CardSizeOf(index, kind)
    ensures kind !in [Str("3d"), Str("video"), Str("audio")] ==>
      CardSizeOf(index, kind) == Slot(index % SlotCount) && (index < SlotCount ==> CardSizeOf(index, kind).slot == index)
  {
  }

  /** The demo components a card can render. */
  datatype Demo = ThreeDDemo | VideoDemo | AudioDemo | ImageDemo

  /** `renderContent`: the kind's own demo, `VideoDemo` for every other kind. */
  function DemoFor(kind: Value): (demo: Demo)
    ensures demo == VideoDemo <==> kind !in [Str("3d"), Str("audio"), Str("image")]
  {
    if kind == Str("3d") then ThreeDDemo
    else if kind == Str("video") then VideoDemo
    else if kind == Str("audio") then AudioDemo
    else if kind == Str("image") then ImageDemo
    else VideoDemo
  }

  /** One card of the grid. */
  datatype Card = Card(item: PlaygroundItem, size: CardSize, demo: Demo)

  /** What `PlaygroundGrid` renders: the placeholder, or one card per item. */
  datatype GridView = Placeholder | Grid(cards: seq<Card>)

  /** `PlaygroundGrid`: the placeholder when there are no items, else the cards in item order. */
  function GridOf(items: seq<PlaygroundItem>): (view: GridView)
    ensures view.Placeholder? <==> items == []
    ensures view.Grid? ==> |view.cards| == |items|
    ensures view.Grid? ==> forall k :: 0 <= k < |items| ==>
      view.cards[k] == Card(items[k], CardSizeOf(k, items[k].kind), DemoFor(items[k].kind))
  {
    if items == [] then Placeholder
    else Grid(seq(|items|, k requires 0 <= k < |items| => Card(items[k], CardSizeOf(k, items[k].kind), DemoFor(items[k].kind))))
  }

  /** The state of one mounted `<audio>` element that the model needs. */
  datatype Player = Player(paused: bool, currentTime: real)

  /** A mounted element that is not paused. */
  predicate Playing(p: Option<Player>) {
    p.Some? && !p.value.paused
  }

  /**
   * The element list after `handlePlay(index)`: every other mounted element
   * paused and rewound, the element at `index` and unmounted slots as they
   * were.
   */
  function StopOthers(players: seq<Option<Player>>, index: nat): (r: seq<Option<Player>>)
    ensures |r| == |players|
  {
    seq(|players|, i requires 0 <= i < |players| =>
      if i != index && players[i].Some? then Some(Player(true, 0.0)) else players[i])
  }

  /**
   * After stopping the others, no track but the one at `index` plays, the
   * one at `index` is untouched, and stopping again changes nothing.
   */
  lemma StopOthersMeaning(players: seq<Option<Player>>, index: nat)
    ensures forall i :: 0 <= i < |players| && Playing(StopOthers(players, index)[i]) ==> i == index
    ensures index < |players| ==> StopOthers(players, index)[index] == players[index]
    ensures forall i :: 0 <= i < |players| ==> (StopOthers(players, index)[i].Some? <==> players[i].Some?)
    ensures StopOthers(StopOthers(players, index), index) == StopOthers(players, index)
  {
  }

  /** `AudioDemo`: the highlighted track and the mounted `<audio>` elements. */
  class AudioDemoState {
    var activeTrack: Option<nat>
    var players: seq<Option<Player>>

    /** At most one track plays, and it is the highlighted one. */
    predicate OneActive()
      reads this
    {
      forall i :: 0 <= i < |players| && Playing(players[i]) ==> activeTrack == Some(i)
    }

    /** A fresh demo: nothing highlighted, each of the `n` tracks mounted, paused at the start. */
    constructor(n: nat)
      ensures activeTrack.None?
      ensures players == seq(n, _ => Some(Player(true, 0.0)))
      ensures OneActive()
    {
      activeTrack := None;
      players := seq(n, _ => Some(Player(true, 0.0)));
    }

    /**
     * `handlePlay(index)`: pauses and rewinds every other mounted element,
     * then highlights `index`.
     */
    method HandlePlay(index: nat)
      modifies this
      ensures players == StopOthers(old(players), index)
      ensures activeTrack == Some(index)
    {
      var i := 0;
      while i < |players|
        invariant 0 <= i <= |players| && |players| == |old(players)|
        invariant players[..i] == StopOthers(old(players), index)[..i]
        invariant forall k :: i <= k < |players| ==> players[k] == old(players)[k]
      {
        if players[i].Some? && i != index {
          players := players[i := Some(Player(true, 0.0))];
        }
        i := i + 1;
      }
      assert players == players[..i];
      activeTrack := Some(index);
    }

    /** `handleEnded`, also the `onPause` handler: nothing highlighted. */
    method HandleEnded()
      modifies this
      ensures activeTrack.None?
      ensures players == old(players)
    {
      activeTrack := None;
    }

    /**
     * The `onPlay` event of track `index`: the browser has started it and
     * calls `handlePlay`, after which only that track plays.
     */
    method OnPlay(index: nat)
      requires index < |players| && players[index].Some?
      modifies this
      ensures activeTrack == Some(index)
      ensures players == StopOthers(Started(old(players), index), index)
      ensures players[index] == Some(Player(false, old(players[index].value.currentTime)))
      ensures OneActive()
    {
      players := Started(players, index);
      HandlePlay(index);
      StopOthersMeaning(Started(old(players), index), index);
    }

    /**
     * A track switch as the browser runs it: the `play` event of `index`,
     * then one `pause` event for every other track that `handlePlay`
     * paused while it was playing, each handled by `onPause`, which is
     * `handleEnded`.  When another track was playing, nothing is
     * highlighted afterwards although `index` plays.
     */
    method SwitchTrack(index: nat)
      requires index < |players| && players[index].Some?
      modifies this
      ensures players == StopOthers(Started(old(players), index), index)
      ensures Playing(players[index])
      ensures (exists j :: StoppedPlaying(old(players), index, j)) ==> activeTrack.None? && !OneActive()
      ensures (forall j :: !StoppedPlaying(old(players), index, j)) ==> activeTrack == Some(index) && OneActive()
    {
      var before := players;
      OnPlay(index);
      var j := 0;
      while j < |before|
        invariant 0 <= j <= |before|
        invariant players == StopOthers(Started(before, index), index)
        invariant (exists k :: 0 <= k < j && StoppedPlaying(before, index, k)) ==> activeTrack.None?
        invariant (forall k :: 0 <= k < j ==> !StoppedPlaying(before, index, k)) ==> activeTrack == Some(index)
      {
        if StoppedPlaying(before, index, j) {
          HandleEnded();
        }
        j := j + 1;
      }
      StopOthersMeaning(Started(before, index), index);
      assert Playing(players[index]);
    }

    /**
     * The `onPause` handler the component evidently intends: a pause clears
     * the highlight only when the paused track is the highlighted one.
     */
    method HandlePause(track: nat)
      modifies this
      ensures activeTrack == if old(activeTrack) == Some(track) then None else old(activeTrack)
      ensures players == old(players)
    {
      if activeTrack == Some(track) {
        activeTrack := None;
      }
    }

    /**
     * The same track switch with `HandlePause` as the `onPause` handler:
     * afterwards the started track is highlighted and is the only one
     * playing, whatever played before.
     */
    method SwitchTrackCorrected(index: nat)
      requires index < |players| && players[index].Some?
      modifies this
      ensures players == StopOthers(Started(old(players), index), index)
      ensures activeTrack == Some(index)
      ensures Playing(players[index]) && OneActive()
    {
      var before := players;
      OnPlay(index);
      var j := 0;
      while j < |before|
        invariant 0 <= j <= |before|
        invariant players == StopOthers(Started(before, index), index)
        invariant activeTrack == Some(index)
      {
        if StoppedPlaying(before, index, j) {
          HandlePause(j);
        }
        j := j + 1;
      }
      StopOthersMeaning(Started(before, index), index);
      assert Playing(players[index]);
    }
  }

  /** The elements once the browser has started track `index`. */
  function Started(players: seq<Option<Player>>, index: nat): (r: seq<Option<Player>>)
    requires index < |players| && players[index].Some?
    ensures |r| == |players| && Playing(r[index])
    ensures forall k :: 0 <= k < |players| && k != index ==> r[k] == players[k]
  {
    players[index := Some(Player(false, players[index].value.currentTime))]
  }

  /** Track `j` was playing and `handlePlay(index)` pauses it, so it fires a `pause` event. */
  predicate StoppedPlaying(players: seq<Option<Player>>, index: nat, j: nat) {
    j != index && j < |players| && Playing(players[j])
  }

  /**
   * Playing track 0 and then track 1 of a two-track demo, as the source
   * handles the events: track 1 plays, and no track is highlighted.
   */
  method SwitchLosesHighlight() returns (highlight: Option<nat>, secondPlays: bool)
    ensures highlight.None? && secondPlays
  {
    var demo := new AudioDemoState(2);
    demo.SwitchTrack(0);
    assert StoppedPlaying(demo.players, 1, 0);
    demo.SwitchTrack(1);
    highlight := demo.activeTrack;
    secondPlays := Playing(demo.players[1]);
  }
}
