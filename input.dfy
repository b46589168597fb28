/** The keyboard toggles: five view flags, each flipped by its own key, and
    the stop events (escape, quit) that end the program. */
module Input {

  datatype Key = KeyA | KeyG | KeyS | KeyX | KeyZ | KeyEscape | OtherKey(code: int)

  /** An event from the window system's queue. */
  datatype Event = KeyDown(key: Key) | QuitRequest | OtherEvent

  /** The five view flags. */
  datatype FlagName = Animate | ShowGrid | ShowSurface | Color2d | Color3d

  datatype Flags = Flags(animate: bool, showGrid: bool, showSurface: bool, color2d: bool, color3d: bool)

  /** The flags at start-up. */
  const InitialFlags := Flags(true, true, false, true, false)

  function Get(f: Flags, n: FlagName): bool {
    match n
    case Animate => f.animate
    case ShowGrid => f.showGrid
    case ShowSurface => f.showSurface
    case Color2d => f.color2d
    case Color3d => f.color3d
  }

  /** The flag a key toggles, if any. */
  function Binding(k: Key): Option<FlagName> {
    match k
    case KeyA => Some(Animate)
    case KeyG => Some(ShowGrid)
    case KeyS => Some(ShowSurface)
    case KeyX => Some(Color2d)
    case KeyZ => Some(Color3d)
    case _ => None
  }

  datatype Option<T> = None | Some(value: T)

  /** Distinct keys toggle distinct flags. */
  lemma BindingInjective(k1: Key, k2: Key)
    requires Binding(k1).Some? && Binding(k1) == Binding(k2)
    ensures k1 == k2
  {
  }

  /** The flag toggled by an event, if any. */
  function Toggled(e: Event): Option<FlagName> {
    if e.KeyDown? then Binding(e.key) else None
  }

  /** An event that ends event processing and the program. */
  predicate Stops(e: Event) {
    e == QuitRequest || e == KeyDown(KeyEscape)
  }

  /** The flags with flag `n`, and only it, negated. */
  function Flip(f: Flags, n: FlagName): Flags {
    match n
    case Animate => f.(animate := !f.animate)
    case ShowGrid => f.(showGrid := !f.showGrid)
    case ShowSurface => f.(showSurface := !f.showSurface)
    case Color2d => f.(color2d := !f.color2d)
    case Color3d => f.(color3d := !f.color3d)
  }

  /** The effect of one event that does not stop: the bound flag, and only
      it, is negated; any other event leaves the flags as they are. */
  function Handle(f: Flags, e: Event): (g: Flags)
    ensures forall n :: Get(g, n) == (Get(f, n) != (Toggled(e) == Some(n)))
    ensures Toggled(e) == None ==> g == f
  {
    match Toggled(e)
    case None => f
    case Some(n) => Flip(f, n)
  }

  /** Pressing the same key twice restores the flags. */
  lemma HandleTwice(f: Flags, e: Event)
    ensures Handle(Handle(f, e), e) == f
  {
  }

  /** The flags after handling every event of `q`, in order. */
  function HandleAll(f: Flags, q: seq<Event>): Flags {
    if q == [] then f else Handle(HandleAll(f, q[..|q| - 1]), q[|q| - 1])
  }

  /** The number of events of `q` that toggle flag `n`. */
  function Presses(q: seq<Event>, n: FlagName): nat {
    if q == [] then 0
    else Presses(q[..|q| - 1], n) + (if Toggled(q[|q| - 1]) == Some(n) then 1 else 0)
  }

  /** After a run of events a flag is its old value, negated exactly when its
      key was pressed an odd number of times. */
  lemma {:induction false} HandleAllParity(f: Flags, q: seq<Event>, n: FlagName)
    ensures Get(HandleAll(f, q), n) == (Get(f, n) != (Presses(q, n) % 2 == 1))
  {
    if q != [] {
      HandleAllParity(f, q[..|q| - 1], n);
    }
  }

  /** Handling two runs of events one after the other is handling their concatenation. */
  lemma {:induction false} HandleAllAppend(f: Flags, p: seq<Event>, q: seq<Event>)
    ensures HandleAll(HandleAll(f, p), q) == HandleAll(f, p + q)
    decreases |q|
  {
    if q != [] {
      assert (p + q)[..|p + q| - 1] == p + q[..|q| - 1];
      HandleAllAppend(f, p, q[..|q| - 1]);
    } else {
      assert p + q == p;
    }
  }

  /** The position of the first stop event of `q`, or `|q|` if none. */
  function FirstStop(q: seq<Event>): (r: nat)
    ensures r <= |q|
    ensures forall k :: 0 <= k < r ==> !Stops(q[k])
    ensures r < |q| ==> Stops(q[r])
  {
    if q == [] then 0
    else if Stops(q[0]) then 0
    else 1 + FirstStop(q[1..])
  }
}
