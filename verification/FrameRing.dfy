/** The ring of textures between the convert thread, which stores pictures, and the draw loop, which shows them.
    No lock guards it: each side reads the other's index at one time and acts on it at another. A run is any
    interleaving of their steps, for one track of one file. */
module FrameRing {
  const VIDEO_BUFFERS: nat := 4

  type Picture = int

  /** The convert thread: between pictures; having read the two indices; or filling a texture. seen is the number
      of pictures the draw loop had passed then, which is not in the program. */
  datatype Converter = Resting | Looked(store: nat, draw: nat, seen: nat) | Filling(store: nat)

  /** The draw loop: between frames; having taken the texture of the frame before; having compared the two indices;
      having read the store index again and counted what is ready; or showing the next one, with the index still to
      be moved on. */
  datatype Viewer = Away | Begun | Compared(ahead: bool) | Saw(health: nat) | Showing

  /** The indices, the textures and the texture on the screen; what each side is doing; and all pictures stored and
      shown so far, which are not in the program. */
  datatype Ring = Ring(
    store: nat,
    draw: nat,
    slots: seq<Picture>,
    image: nat,
    converter: Converter,
    viewer: Viewer,
    stored: seq<Picture>,
    shown: seq<Picture>
  )

  datatype Step = Look | Check | Fill(p: Picture) | Publish | GiveUp | BeginFrame | Compare | See | Show | Advance | Skip

  predicate Starts(r: Ring) {
    r.store == 0 && r.draw == 0 && |r.slots| == VIDEO_BUFFERS && r.image == VIDEO_BUFFERS - 1 &&
    r.converter.Resting? && r.viewer.Away? && r.stored == [] && r.shown == []
  }

  function Next(i: nat): nat {
    if i + 1 < VIDEO_BUFFERS then i + 1 else 0
  }

  function Previous(i: nat): nat {
    if i > 0 then i - 1 else VIDEO_BUFFERS - 1
  }

  /** How many pictures lie between the indices, as the convert thread computes it. */
  function Health(store: nat, draw: nat): int {
    if draw <= store then store - draw else VIDEO_BUFFERS - draw + store
  }

  /** The same as the draw loop computes it, in eight bits, when it has compared the indices before and the store
      index may have moved on since. */
  function SeenHealth(store: nat, draw: nat, ahead: bool): nat
    requires store < VIDEO_BUFFERS && draw < VIDEO_BUFFERS
  {
    if ahead then (store - draw) % 256 else (VIDEO_BUFFERS - draw) + store
  }

  /** A step of the convert thread. */
  function ConvertStep(r: Ring, a: Step): Ring {
    match a
    case Look =>
      if r.converter.Resting? then r.(converter := Looked(r.store, r.draw, Passed(r))) else r
    case Check =>
      if !r.converter.Looked? then r
      else if Health(r.converter.store, r.converter.draw) + 1 >= VIDEO_BUFFERS then r.(converter := Resting)
      else r.(converter := Filling(r.converter.store))
    case Fill(p) =>
      if r.converter.Filling? && r.store < |r.slots| then r.(slots := r.slots[r.store := p]) else r
    case Publish =>
      if r.converter.Filling? && r.store < |r.slots| then
        r.(store := Next(r.converter.store), converter := Resting, stored := r.stored + [r.slots[r.store]])
      else r
    case GiveUp => if r.converter.Filling? then r.(converter := Resting) else r
    case _ => r
  }

  /** A step of the draw loop. */
  function DrawStep(r: Ring, a: Step): Ring {
    match a
    case BeginFrame => if r.viewer.Away? then r.(viewer := Begun, image := Previous(r.draw)) else r
    case Compare => if r.viewer.Begun? then r.(viewer := Compared(r.draw <= r.store)) else r
    case See =>
      if r.viewer.Compared? && r.store < VIDEO_BUFFERS && r.draw < VIDEO_BUFFERS then
        r.(viewer := Saw(SeenHealth(r.store, r.draw, r.viewer.ahead)))
      else r
    case Show =>
      if r.viewer.Saw? && r.viewer.health > 0 && r.draw < |r.slots| then
        r.(viewer := Showing, image := r.draw, shown := r.shown + [r.slots[r.draw]])
      else r
    case Advance => if r.viewer.Showing? then r.(viewer := Away, draw := Next(r.draw)) else r
    case Skip => if r.viewer.Begun? || r.viewer.Compared? || r.viewer.Saw? then r.(viewer := Away) else r
    case _ => r
  }

  function Do(r: Ring, a: Step): Ring {
    if a.Look? || a.Check? || a.Fill? || a.Publish? || a.GiveUp? then ConvertStep(r, a) else DrawStep(r, a)
  }

  function Run(r: Ring, steps: seq<Step>): Ring {
    if steps == [] then r else Do(Run(r, steps[..|steps| - 1]), steps[|steps| - 1])
  }

  /** The pictures whose place the draw index has passed. */
  function Passed(r: Ring): nat {
    if r.viewer.Showing? && r.shown != [] then |r.shown| - 1 else |r.shown|
  }

  // ---- What every interleaving keeps -----------------------------------------------------------------

  /** The textures hold the pictures that are ready, and the one shown last. */
  predicate Holds(slots: seq<Picture>, stored: seq<Picture>, passed: nat) {
    |slots| == VIDEO_BUFFERS &&
    forall k: nat | passed <= k + 1 && k < |stored| :: slots[k % VIDEO_BUFFERS] == stored[k]
  }

  predicate ConverterFits(r: Ring) {
    match r.converter
    case Resting => true
    case Looked(store, draw, seen) =>
      store == r.store && draw == seen % VIDEO_BUFFERS && seen <= Passed(r) && |r.stored| < seen + VIDEO_BUFFERS
    case Filling(store) => store == r.store && |r.stored| + 1 < Passed(r) + VIDEO_BUFFERS
  }

  predicate ViewerFits(r: Ring) {
    (r.viewer.Showing? ==> r.shown != []) &&
    (r.viewer.Compared? && !r.viewer.ahead ==> r.store < r.draw) &&
    (r.viewer.Saw? && r.viewer.health > 0 ==> |r.shown| < |r.stored|) &&
    r.image == (if r.viewer.Showing? then r.draw else Previous(r.draw))
  }

  predicate Inv(r: Ring) {
    Passed(r) <= |r.shown| <= |r.stored| < Passed(r) + VIDEO_BUFFERS &&
    r.store == |r.stored| % VIDEO_BUFFERS && r.draw == Passed(r) % VIDEO_BUFFERS &&
    Holds(r.slots, r.stored, Passed(r)) && r.shown == r.stored[..|r.shown|] &&
    ConverterFits(r) && ViewerFits(r)
  }

  /** The indices tell the number of pictures that are ready, as long as it is less than the ring's size. */
  lemma HealthIs(stored: nat, passed: nat)
    requires passed <= stored < passed + VIDEO_BUFFERS
    ensures Health(stored % VIDEO_BUFFERS, passed % VIDEO_BUFFERS) == stored - passed
  {
  }

  /** The store index may have wrapped between the two reads, and the count then be far too large; but it is
      positive exactly if a picture is ready. */
  lemma SeenIsReady(stored: nat, passed: nat, ahead: bool)
    requires passed <= stored < passed + VIDEO_BUFFERS
    requires !ahead ==> stored % VIDEO_BUFFERS < passed % VIDEO_BUFFERS
    ensures var health := SeenHealth(stored % VIDEO_BUFFERS, passed % VIDEO_BUFFERS, ahead);
            health <= 255 && (health > 0 <==> stored > passed) &&
            (health != stored - passed ==> ahead && stored % VIDEO_BUFFERS < passed % VIDEO_BUFFERS)
  {
    HealthIs(stored, passed);
  }

  /** As long as the draw index stays, the store index does not catch up with it. */
  lemma StaysBehind(stored: nat, passed: nat)
    requires passed <= stored && stored + 1 < passed + VIDEO_BUFFERS && stored % VIDEO_BUFFERS < passed % VIDEO_BUFFERS
    ensures (stored + 1) % VIDEO_BUFFERS < passed % VIDEO_BUFFERS
  {
    HealthIs(stored, passed);
    NextIs(stored);
  }

  lemma NextIs(n: nat)
    ensures Next(n % VIDEO_BUFFERS) == (n + 1) % VIDEO_BUFFERS
  {
  }

  lemma ConvertKeeps(r: Ring, a: Step)
    requires Inv(r)
    ensures Inv(ConvertStep(r, a))
  {
    match a {
      case Check => if r.converter.Looked? { HealthIs(|r.stored|, r.converter.seen); }
      case Fill(p) => FillKeeps(r, p);
      case Publish => PublishKeeps(r);
      case _ =>
    }
  }

  lemma FillKeeps(r: Ring, p: Picture)
    requires Inv(r)
    ensures Inv(ConvertStep(r, Fill(p)))
  {
    if r.converter.Filling? {
      assert Holds(r.slots[r.store := p], r.stored, Passed(r));
    }
  }

  lemma PublishKeeps(r: Ring)
    requires Inv(r)
    ensures Inv(ConvertStep(r, Publish))
  {
    NextIs(|r.stored|);
    if r.converter.Filling? {
      if r.viewer.Compared? && !r.viewer.ahead {
        StaysBehind(|r.stored|, Passed(r));
      }
      assert Holds(r.slots, r.stored + [r.slots[r.store]], Passed(r));
    }
  }

  lemma DrawKeeps(r: Ring, a: Step)
    requires Inv(r)
    ensures Inv(DrawStep(r, a))
  {
    match a {
      case See => if r.viewer.Compared? { SeenIsReady(|r.stored|, Passed(r), r.viewer.ahead); }
      case Advance => NextIs(Passed(r));
      case _ =>
    }
  }

  lemma {:induction false} Always(r: Ring, steps: seq<Step>)
    requires Starts(r)
    ensures Inv(Run(r, steps))
    decreases |steps|
  {
    if steps != [] {
      var init, a := steps[..|steps| - 1], steps[|steps| - 1];
      Always(r, init);
      ConvertKeeps(Run(r, init), a);
      DrawKeeps(Run(r, init), a);
    }
  }

  // ---- The main results ------------------------------------------------------------------------------

  /** At most VIDEO_BUFFERS - 1 pictures are ready, and the indices always tell how many. */
  lemma OccupancyBounded(r: Ring, steps: seq<Step>)
    requires Starts(r)
    ensures var s := Run(r, steps);
            0 <= Health(s.store, s.draw) == |s.stored| - Passed(s) <= 3
  {
    Always(r, steps);
    HealthIs(|Run(r, steps).stored|, Passed(Run(r, steps)));
  }

  /** The texture being filled is never the one on the screen. */
  lemma FillsElsewhere(r: Ring, steps: seq<Step>)
    requires Starts(r)
    ensures var s := Run(r, steps); s.converter.Filling? ==> s.store != s.image
  {
    Always(r, steps);
    if Run(r, steps).converter.Filling? {
      Elsewhere(Run(r, steps));
    }
  }

  lemma Elsewhere(s: Ring)
    requires Inv(s) && s.converter.Filling?
    ensures s.store != s.image
  {
    var n, passed := |s.stored|, Passed(s);
    assert n == passed || n == passed + 1 || n == passed + 2;
  }

  /** The pictures shown are the first ones stored, in order, each once; and the texture on the screen still
      holds the last of them. */
  predicate InOrder(s: Ring) {
    s.shown <= s.stored && |s.slots| == VIDEO_BUFFERS &&
    (s.shown != [] ==> s.image < VIDEO_BUFFERS && s.slots[s.image] == s.shown[|s.shown| - 1])
  }

  lemma Intact(s: Ring)
    requires Inv(s)
    ensures InOrder(s)
  {
    if s.shown != [] {
      var k := |s.shown| - 1;
      NextIs(k);
      assert s.image == k % VIDEO_BUFFERS;
      assert s.slots[k % VIDEO_BUFFERS] == s.stored[k];
    }
  }

  lemma ShownInOrder(r: Ring, steps: seq<Step>)
    requires Starts(r)
    ensures InOrder(Run(r, steps))
  {
    Always(r, steps);
    Intact(Run(r, steps));
  }

  /** Steps of the draw loop. */
  predicate DrawOnly(steps: seq<Step>) {
    forall i | 0 <= i < |steps| :: steps[i].BeginFrame? || steps[i].Compare? || steps[i].See? || steps[i].Show? || steps[i].Advance? || steps[i].Skip?
  }

  lemma {:induction false} RunConcat(r: Ring, a: seq<Step>, b: seq<Step>)
    ensures Run(r, a + b) == Run(Run(r, a), b)
    decreases |b|
  {
    if b == [] {
      assert a + b == a;
    } else {
      assert (a + b)[..|a + b| - 1] == a + b[..|b| - 1];
      RunConcat(r, a, b[..|b| - 1]);
    }
  }

  lemma {:induction false} DrawingStoresNothing(r: Ring, steps: seq<Step>)
    requires DrawOnly(steps)
    ensures var s := Run(r, steps); s.store == r.store && s.slots == r.slots && s.converter == r.converter && s.stored == r.stored
    decreases |steps|
  {
    if steps != [] {
      DrawingStoresNothing(r, steps[..|steps| - 1]);
    }
  }

  /** The picture that is stored is the one that the texture was filled with, whatever the draw loop does in between. */
  lemma StoresWhatIsFilled(r: Ring, steps: seq<Step>, p: Picture, draws: seq<Step>)
    requires Starts(r) && Run(r, steps).converter.Filling? && DrawOnly(draws)
    ensures Run(r, steps + [Fill(p)] + draws + [Publish]).stored == Run(r, steps).stored + [p]
  {
    var s := Run(r, steps);
    Always(r, steps);
    RunConcat(r, steps, [Fill(p)]);
    RunConcat(r, steps + [Fill(p)], draws);
    RunConcat(r, steps + [Fill(p)] + draws, [Publish]);
    var filled := ConvertStep(s, Fill(p));
    assert Run(s, [Fill(p)]) == filled;
    DrawingStoresNothing(filled, draws);
    var t := Run(filled, draws);
    assert Run(t, [Publish]) == ConvertStep(t, Publish);
  }
}
