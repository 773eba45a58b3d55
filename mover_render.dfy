/** The mover overlay's view: whether it shows, which controls it offers, and
    the layout of move targets, device tiles and page labels the this-device
    controls draw for an insert position. DOM nodes become abstract `Node`s;
    event handlers are left out. */
module MoverRender {

  /** What a moving device shows: a page number or a fixed text. */
  datatype Label = PageLabel(page: int) | TextLabel(text: string)

  /** The nodes of the device-movement space. */
  datatype Node =
    | MoveDevice(shows: Label)
    | MoveTarget(index: int, highlighted: bool)
    | DeviceTile(page: int)

  datatype Controls = ThisDeviceControls | OtherDeviceControls

  datatype Overlay = Overlay(hidden: bool, controls: Controls)

  /** `render`: the overlay is hidden unless moving, and offers the
      this-device controls exactly when this device is the one moving. */
  function Render(moving: bool, movingThisDevice: bool): (o: Overlay)
    ensures o.hidden <==> !moving
    ensures o.controls == ThisDeviceControls <==> movingThisDevice
    ensures o.controls == OtherDeviceControls <==> !movingThisDevice
  {
    Overlay(!moving, if movingThisDevice then ThisDeviceControls else OtherDeviceControls)
  }

  /** The page offset of tile `i`: 1 once the insert position has been
      passed, except for an insert at 0 in front of a first page other than
      1, which takes the page before the set instead. */
  function Offset(first: int, insert: int, i: int): int
  {
    if 0 <= insert <= i && !(insert == 0 && first != 1) then 1 else 0
  }

  /** The page a device inserted at position `i` shows. */
  function InsertedPage(first: int, i: int): int
  {
    if i == 0 && first != 1 then first - 1 else first + i
  }

  /** The page tile `i` shows. */
  function TilePage(first: int, insert: int, i: int): int
  {
    first + i + Offset(first, insert, i)
  }

  /** The node in front of tile `i`: the moving device at the insert
      position, a drop target elsewhere. */
  function SlotNode(first: int, insert: int, highlight: int, i: int): Node
  {
    if i == insert then MoveDevice(PageLabel(InsertedPage(first, i)))
    else MoveTarget(i, i == highlight)
  }

  /** The nodes the loop has pushed after `k` devices of the set. */
  function Slots(k: nat, first: int, insert: int, highlight: int): (r: seq<Node>)
    ensures |r| == 2 * k
  {
    if k == 0 then []
    else Slots(k - 1, first, insert, highlight) +
         [SlotNode(first, insert, highlight, k - 1), DeviceTile(TilePage(first, insert, k - 1))]
  }

  /** The last node: the moving device when it is inserted at the end, the
      final drop target otherwise. */
  function FinalNode(n: int, first: int, insert: int, highlight: int): Node
  {
    if insert == n then MoveDevice(PageLabel(first + n)) else MoveTarget(n, n == highlight)
  }

  /** The node above the list: the unlinked device, or the start target
      numbered one past the final one. */
  function StartNode(n: int, insert: int, highlight: int): Node
  {
    if insert < 0 then MoveDevice(TextLabel("D")) else MoveTarget(n + 1, n + 1 == highlight)
  }

  function LinkLabel(insert: int): string
  {
    if insert < 0 then "Unlinked" else "Linked"
  }

  function Devices(n: int): nat
  {
    if n > 0 then n else 0
  }

  /** The device-movement space: the slots of every device, then the final
      node. */
  function Space(n: int, first: int, insert: int, highlight: int): seq<Node>
  {
    Slots(Devices(n), first, insert, highlight) + [FinalNode(n, first, insert, highlight)]
  }

  /** `moveThisDeviceControls`: the loop over the linked set with its running
      page offset, then the final and the start node. */
  method MoveThisDeviceControls(n: int, first: int, insert: int, highlight: int)
    returns (start: Node, linkLabel: string, space: seq<Node>)
    ensures space == Space(n, first, insert, highlight)
    ensures start == StartNode(n, insert, highlight)
    ensures linkLabel == LinkLabel(insert)
  {
    var deviceTargetArray: seq<Node> := [];
    var newPageOffset := 0;
    var i := 0;
    while i < n
      invariant 0 <= i <= Devices(n)
      invariant newPageOffset == Offset(first, insert, i - 1)
      invariant deviceTargetArray == Slots(i, first, insert, highlight)
    {
      if i == insert {
        var devicePageNum := first + i;
        if i == 0 && first != 1 {
          devicePageNum := first - 1;
        } else {
          newPageOffset := 1;
        }
        deviceTargetArray := deviceTargetArray + [MoveDevice(PageLabel(devicePageNum))];
      } else {
        deviceTargetArray := deviceTargetArray + [MoveTarget(i, i == highlight)];
      }
      deviceTargetArray := deviceTargetArray + [DeviceTile(first + i + newPageOffset)];
      i := i + 1;
    }
    var finalItem;
    if insert == n {
      finalItem := MoveDevice(PageLabel(first + n));
    } else {
      finalItem := MoveTarget(n, n == highlight);
    }
    space := deviceTargetArray + [finalItem];
    if insert < 0 {
      start := MoveDevice(TextLabel("D"));
    } else {
      start := MoveTarget(n + 1, n + 1 == highlight);
    }
    linkLabel := if insert < 0 then "Unlinked" else "Linked";
  }

  /** How many device tiles there are among `nodes`. */
  function TileCount(nodes: seq<Node>): nat
  {
    if nodes == [] then 0
    else TileCount(nodes[..|nodes| - 1]) + (if nodes[|nodes| - 1].DeviceTile? then 1 else 0)
  }

  /** How many moving-device nodes there are among `nodes`. */
  function DeviceCount(nodes: seq<Node>): nat
  {
    if nodes == [] then 0
    else DeviceCount(nodes[..|nodes| - 1]) + (if nodes[|nodes| - 1].MoveDevice? then 1 else 0)
  }

  /** The page numbers shown, in order, by the tiles and the moving device. */
  function PageLabels(nodes: seq<Node>): seq<int>
  {
    if nodes == [] then []
    else
      var last := nodes[|nodes| - 1];
      PageLabels(nodes[..|nodes| - 1]) +
      (match last
       case DeviceTile(p) => [p]
       case MoveDevice(PageLabel(p)) => [p]
       case _ => [])
  }

  /** `count` consecutive pages from `base`. */
  function Run(base: int, count: nat): (r: seq<int>)
    ensures |r| == count
    ensures forall j :: 0 <= j < count ==> r[j] == base + j
  {
    seq(count, j => base + j)
  }

  /** The page the labels start from: the page before the set for an insert
      at 0 in front of a first page other than 1, the first page otherwise. */
  function Base(k: int, first: int, insert: int): int
  {
    if insert == 0 && first != 1 && k > 0 then first - 1 else first
  }

  lemma SnocNode(a: seq<Node>, x: Node)
    ensures (a + [x])[..|a|] == a
    ensures (a + [x])[|a|] == x
  {
  }

  /** Slot `i` of the space is target or device for position `i`, then tile
      `i`. */
  lemma {:induction false} SlotsAt(k: nat, first: int, insert: int, highlight: int, i: nat)
    requires i < k
    ensures Slots(k, first, insert, highlight)[2 * i] == SlotNode(first, insert, highlight, i)
    ensures Slots(k, first, insert, highlight)[2 * i + 1] == DeviceTile(TilePage(first, insert, i))
  {
    if i < k - 1 {
      SlotsAt(k - 1, first, insert, highlight, i);
    }
  }

  lemma {:induction false} SlotsCounts(k: nat, first: int, insert: int, highlight: int)
    ensures TileCount(Slots(k, first, insert, highlight)) == k
    ensures DeviceCount(Slots(k, first, insert, highlight)) == if 0 <= insert < k then 1 else 0
    ensures PageLabels(Slots(k, first, insert, highlight)) ==
            Run(Base(k, first, insert), k + (if 0 <= insert < k then 1 else 0))
  {
    if k > 0 {
      var prev := Slots(k - 1, first, insert, highlight);
      var slot := SlotNode(first, insert, highlight, k - 1);
      var tile := DeviceTile(TilePage(first, insert, k - 1));
      SlotsCounts(k - 1, first, insert, highlight);
      assert Slots(k, first, insert, highlight) == (prev + [slot]) + [tile];
      SnocNode(prev, slot);
      SnocNode(prev + [slot], tile);
      var before := Run(Base(k - 1, first, insert), k - 1 + (if 0 <= insert < k - 1 then 1 else 0));
      assert PageLabels(prev + [slot]) == before + (if k - 1 == insert then [InsertedPage(first, k - 1)] else []);
      assert PageLabels(Slots(k, first, insert, highlight)) == PageLabels(prev + [slot]) + [TilePage(first, insert, k - 1)];
    }
  }

  /** The this-device controls hold exactly one tile per device of the
      linked set. */
  lemma TilesPerDevice(n: int, first: int, insert: int, highlight: int)
    ensures TileCount(Space(n, first, insert, highlight)) == Devices(n)
  {
    var slots := Slots(Devices(n), first, insert, highlight);
    SlotsCounts(Devices(n), first, insert, highlight);
    SnocNode(slots, FinalNode(n, first, insert, highlight));
  }

  /** The moving device appears once above the list when unlinked, once in
      the list when inserted inside it, once at the end when inserted there
      and not at all for an insert position past the end. */
  lemma DeviceNodes(n: int, first: int, insert: int, highlight: int)
    ensures DeviceCount([StartNode(n, insert, highlight)] + Space(n, first, insert, highlight)) ==
            (if insert < 0 then 1 else 0) + (if 0 <= insert < Devices(n) then 1 else 0) + (if insert == n then 1 else 0)
  {
    var slots := Slots(Devices(n), first, insert, highlight);
    var start := StartNode(n, insert, highlight);
    var final := FinalNode(n, first, insert, highlight);
    SlotsCounts(Devices(n), first, insert, highlight);
    StartCount(start, slots);
    assert [start] + Space(n, first, insert, highlight) == ([start] + slots) + [final];
    SnocNode([start] + slots, final);
  }

  /** A node put in front of a sequence adds its own count. */
  lemma {:induction false} StartCount(start: Node, nodes: seq<Node>)
    ensures DeviceCount([start] + nodes) == (if start.MoveDevice? then 1 else 0) + DeviceCount(nodes)
  {
    if nodes != [] {
      var init := nodes[..|nodes| - 1];
      StartCount(start, init);
      assert ([start] + nodes)[..|nodes|] == [start] + init;
    }
  }

  /** For an insert position from -1 (unlinked) to the end of a linked set,
      exactly one moving-device node is drawn. */
  lemma ExactlyOneDevice(n: int, first: int, insert: int, highlight: int)
    requires 0 <= n && -1 <= insert <= n
    ensures DeviceCount([StartNode(n, insert, highlight)] + Space(n, first, insert, highlight)) == 1
  {
    DeviceNodes(n, first, insert, highlight);
  }

  /** Read top to bottom, the tiles and the moving device show consecutive
      pages: one per device, plus one for the moving device when it is
      inserted into the set. */
  lemma PagesConsecutive(n: int, first: int, insert: int, highlight: int)
    requires 0 <= n
    ensures PageLabels(Space(n, first, insert, highlight)) ==
            Run(Base(n, first, insert), n + (if 0 <= insert <= n then 1 else 0))
  {
    var slots := Slots(n, first, insert, highlight);
    var final := FinalNode(n, first, insert, highlight);
    SlotsCounts(n, first, insert, highlight);
    SnocNode(slots, final);
    assert Space(n, first, insert, highlight) == slots + [final];
    if insert == n {
      assert PageLabels(slots + [final]) == PageLabels(slots) + [first + n];
      RunSnoc(first, n);
    } else {
      assert PageLabels(slots + [final]) == PageLabels(slots);
    }
  }

  lemma RunSnoc(base: int, count: nat)
    ensures Run(base, count) + [base + count] == Run(base, count + 1)
  {
  }

  /** Every drop target is highlighted exactly when its index is the
      highlighted one, and target `i` of the list stands at position `i`. */
  lemma TargetsHighlighted(n: int, first: int, insert: int, highlight: int)
    ensures var nodes := [StartNode(n, insert, highlight)] + Space(n, first, insert, highlight);
      forall j :: 0 <= j < |nodes| && nodes[j].MoveTarget? ==> (nodes[j].highlighted <==> nodes[j].index == highlight)
    ensures forall i :: 0 <= i < Devices(n) && i != insert ==>
      Space(n, first, insert, highlight)[2 * i] == MoveTarget(i, i == highlight)
  {
    var k := Devices(n);
    var space := Space(n, first, insert, highlight);
    var nodes := [StartNode(n, insert, highlight)] + space;
    forall i | 0 <= i < k
      ensures space[2 * i] == SlotNode(first, insert, highlight, i)
      ensures space[2 * i + 1] == DeviceTile(TilePage(first, insert, i))
    {
      SlotsAt(k, first, insert, highlight, i);
    }
    forall j | 0 <= j < |nodes|
      ensures nodes[j].MoveTarget? ==> (nodes[j].highlighted <==> nodes[j].index == highlight)
    {
      if 1 <= j < |nodes| - 1 {
        var p := j - 1;
        assert nodes[j] == space[p];
        if p % 2 == 0 {
          assert space[2 * (p / 2)] == SlotNode(first, insert, highlight, p / 2);
        } else {
          assert space[2 * (p / 2) + 1] == DeviceTile(TilePage(first, insert, p / 2));
        }
      }
    }
  }
}
