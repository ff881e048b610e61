/** `nparticleToMesh.py`: `bakeNParticles` turns the instances of an nParticle
    instancer into real geometry. For every frame and every particle it picks
    the instanced object, reuses or duplicates the node
    `<transform>_geo_<order>`, keys it, and afterwards writes zero keys on the
    frames around each instance's keys so it is hidden when not in use.

    Maya is reduced to what these rules ask of it: the particle count per
    frame, a particle's object-index reading, which node names exist, and the
    keys recorded on each node. */
module ParticleBake {
  import opened Lists
  import opened Text

  // ---------------------------------------------------------------------
  // the instanced object

  /** What `pm.nParticle(..., at=objectIndex)` returns for one particle:
      a float for a scalar attribute, a list of floats otherwise. */
  datatype Reading = Scalar(x: real) | Vector(xs: seq<real>)

  /** `if isinstance(s, float): s = [s]`. */
  function AsList(s: Reading): (r: seq<real>)
    ensures s.Scalar? ==> r == [s.x]
    ensures s.Vector? ==> r == s.xs
  {
    match s
    case Scalar(x) => [x]
    case Vector(xs) => xs
  }

  /** Python's `int(x)` on a float: the integer part, toward zero. */
  function Trunc(x: real): (r: int)
    ensures x >= 0.0 ==> 0 <= r && r as real <= x < r as real + 1.0
    ensures x < 0.0 ==> r <= 0 && r as real - 1.0 < x <= r as real
  {
    if x >= 0.0 then x.Floor else -((-x).Floor)
  }

  /** The instance index exactly as written: the reading's first entry cut to
      an integer, lowered to the length of the reading minus one when it is at
      least that length; 0 without an object index attribute. `None` stands
      for the `IndexError` an empty reading raises. */
  function InstanceIndexAsWritten(hasObjectIndex: bool, s: Reading): (r: Option<int>)
    ensures !hasObjectIndex ==> r == Some(0)
    ensures hasObjectIndex ==> (r.None? <==> AsList(s) == [])
    ensures r.Some? && hasObjectIndex ==> r.value <= Trunc(AsList(s)[0]) && r.value < |AsList(s)|
    ensures hasObjectIndex && AsList(s) != [] && Trunc(AsList(s)[0]) < |AsList(s)| ==>
      r == Some(Trunc(AsList(s)[0]))
  {
    if !hasObjectIndex then Some(0)
    else
      var list := AsList(s);
      if list == [] then None
      else
        var sObjects := |list|;
        var instanceIndex := Trunc(list[0]);
        Some(if instanceIndex >= sObjects then sObjects - 1 else instanceIndex)
  }

  /** A scalar object index of 2 picks object 0, although the instancer has
      three objects and picks the third one itself. */
  lemma ScalarIndexCollapses()
    ensures InstanceIndexAsWritten(true, Scalar(2.0)) == Some(0)
    ensures InstanceIndex(true, Scalar(2.0), 3) == Some(2)
  {
  }

  /** With a scalar reading, every index of one or more becomes 0. */
  lemma {:induction false} ScalarIndexAlwaysFirst(x: real)
    requires x >= 1.0
    ensures InstanceIndexAsWritten(true, Scalar(x)) == Some(0)
  {
    assert Trunc(x) >= 1;
  }

  /** The instance index as evidently intended: the first entry cut to an
      integer and lowered to the last object when it is past the end of the
      instanced objects. */
  function InstanceIndex(hasObjectIndex: bool, s: Reading, objectCount: nat): (r: Option<int>)
    ensures !hasObjectIndex ==> r == Some(0)
    ensures hasObjectIndex ==> (r.None? <==> AsList(s) == [])
  {
    if !hasObjectIndex then Some(0)
    else
      var list := AsList(s);
      if list == [] then None
      else
        var instanceIndex := Trunc(list[0]);
        Some(if instanceIndex >= objectCount then objectCount - 1 else instanceIndex)
  }

  /** An index inside the object list is kept; one past its end picks the
      last object; so every non-negative reading selects an object. */
  lemma {:induction false} InstanceIndexSelects(s: Reading, objectCount: nat)
    requires AsList(s) != [] && objectCount > 0
    ensures 0 <= Trunc(AsList(s)[0]) < objectCount ==>
      InstanceIndex(true, s, objectCount) == Some(Trunc(AsList(s)[0]))
    ensures Trunc(AsList(s)[0]) >= objectCount ==>
      InstanceIndex(true, s, objectCount) == Some(objectCount - 1)
    ensures AsList(s)[0] >= 0.0 ==> 0 <= InstanceIndex(true, s, objectCount).value < objectCount
  {
  }

  /** Python's `xs[i]`: negative indexes count from the end; `None` is the
      `IndexError` of an index outside the list. */
  function PyIndex<T>(xs: seq<T>, i: int): (r: Option<T>)
    ensures r.Some? <==> -|xs| <= i < |xs|
    ensures 0 <= i < |xs| ==> r == Some(xs[i])
    ensures -|xs| <= i < 0 ==> r == Some(xs[|xs| + i])
  {
    if 0 <= i < |xs| then Some(xs[i])
    else if -|xs| <= i < 0 then Some(xs[|xs| + i])
    else None
  }

  // ---------------------------------------------------------------------
  // instance names

  /** `"%s_geo_%04d" % (pTrans, i)`. */
  function InstName(pTrans: string, i: nat): string {
    pTrans + "_geo_" + ZeroPad(NatToDecimal(i), 4)
  }

  /** Two particles of one system never share an instance name. */
  lemma {:induction false} InstNameInjective(pTrans: string, i: nat, j: nat)
    requires InstName(pTrans, i) == InstName(pTrans, j)
    ensures i == j
  {
    var n := |pTrans + "_geo_"|;
    var a, b := InstName(pTrans, i), InstName(pTrans, j);
    assert a[n..] == ZeroPad(NatToDecimal(i), 4);
    assert b[n..] == ZeroPad(NatToDecimal(j), 4);
    PaddedRoundTrip(i, 4);
    PaddedRoundTrip(j, 4);
  }

  /** Below 10000 the order is written with exactly four digits. */
  lemma {:induction false} InstNameWidth(pTrans: string, i: nat)
    requires i < 10000
    ensures |InstName(pTrans, i)| == |pTrans| + 9
  {
    DecimalLength(i);
  }

  lemma {:induction false} DecimalLength(n: nat)
    ensures n < 10 ==> |NatToDecimal(n)| == 1
    ensures n < 100 ==> |NatToDecimal(n)| <= 2
    ensures n < 1000 ==> |NatToDecimal(n)| <= 3
    ensures n < 10000 ==> |NatToDecimal(n)| <= 4
  {
    if n >= 10 {
      DecimalLength(n / 10);
    }
  }

  /** The instance names of particles `0 .. n-1`, in particle order. */
  function ParticleNames(pTrans: string, n: nat): (r: seq<string>)
    ensures |r| == n && forall i :: 0 <= i < n ==> r[i] == InstName(pTrans, i)
  {
    seq(n, (i: int) requires 0 <= i => InstName(pTrans, i))
  }

  lemma {:induction false} ParticleNamesSnoc(pTrans: string, n: nat)
    requires n > 0
    ensures ParticleNames(pTrans, n) == ParticleNames(pTrans, n - 1) + [InstName(pTrans, n - 1)]
  {
    var front := ParticleNames(pTrans, n - 1);
    var all := front + [InstName(pTrans, n - 1)];
    forall i | 0 <= i < n
      ensures ParticleNames(pTrans, n)[i] == all[i]
    {
      if i < n - 1 {
        assert all[i] == front[i];
      }
    }
  }

  /** A particle's name is among the first `n` names exactly when its order
      is below `n`. */
  lemma {:induction false} InParticleNames(pTrans: string, n: nat, i: nat)
    ensures InstName(pTrans, i) in ParticleNames(pTrans, n) <==> i < n
  {
    if InstName(pTrans, i) in ParticleNames(pTrans, n) {
      var k :| 0 <= k < n && ParticleNames(pTrans, n)[k] == InstName(pTrans, i);
      InstNameInjective(pTrans, k, i);
    }
    if i < n {
      assert ParticleNames(pTrans, n)[i] == InstName(pTrans, i);
    }
  }

  lemma {:induction false} ParticleNamesNoDup(pTrans: string, n: nat)
    ensures NoDup(ParticleNames(pTrans, n))
  {
    var r := ParticleNames(pTrans, n);
    forall i, j | 0 <= i < j < n
      ensures r[i] != r[j]
    {
      if r[i] == r[j] {
        InstNameInjective(pTrans, i, j);
      }
    }
  }

  /** Adding the names of `n` particles to the names of `m` particles, each
      only when it is not there yet, gives the names of `max(m, n)` particles. */
  lemma {:induction false} AddUnseenParticleNames(pTrans: string, m: nat, n: nat)
    ensures AddUnseen(ParticleNames(pTrans, m), ParticleNames(pTrans, n))
         == ParticleNames(pTrans, Max(m, n))
  {
    if n == 0 {
    } else {
      AddUnseenParticleNames(pTrans, m, n - 1);
      ParticleNamesSnoc(pTrans, n);
      AddUnseenSnoc(ParticleNames(pTrans, m), ParticleNames(pTrans, n - 1), InstName(pTrans, n - 1));
      InParticleNames(pTrans, Max(m, n - 1), n - 1);
      if n - 1 >= m {
        ParticleNamesSnoc(pTrans, n);
      }
    }
  }

  function Max(a: nat, b: nat): (r: nat)
    ensures r >= a && r >= b && (r == a || r == b)
  {
    if a >= b then a else b
  }

  // ---------------------------------------------------------------------
  // recorded scene writes

  /** The attributes the bake keys on every instance. */
  datatype Attr = TX | TY | TZ | RX | RY | RZ | SX | SY | SZ | V

  function AttrName(a: Attr): (r: string)
    ensures |r| == 2 || r == "v"
  {
    match a
    case TX => "tx" case TY => "ty" case TZ => "tz"
    case RX => "rx" case RY => "ry" case RZ => "rz"
    case SX => "sx" case SY => "sy" case SZ => "sz"
    case V => "v"
  }

  const BakeAttrs: seq<Attr> := [TX, TY, TZ, RX, RY, RZ, SX, SY, SZ, V]

  /** The attributes the cleanup pass zeroes: scale and visibility. */
  const CleanupAttrs: seq<Attr> := [SX, SY, SZ, V]

  /** A key either stores the attribute's current value or the value 0. */
  datatype KeyValue = Current | Zero

  /** What the bake asks of the scene, in order. */
  datatype Write =
    | Duplicate(source: string, name: string)
    | SetKey(node: string, attr: Attr, time: int, value: KeyValue)
    | Group(group: string)
    | Parent(children: seq<string>, parent: string)

  /** The times `pm.keyframe(node, query=True)` returns once `log` has been
      applied: one entry per key set on the node, in the order the keys were
      set. */
  function KeyTimes(log: seq<Write>, node: string): (r: seq<int>)
    ensures |r| <= |log|
    decreases |log|
  {
    if log == [] then []
    else
      var w := log[|log| - 1];
      var front := KeyTimes(log[..|log| - 1], node);
      if w.SetKey? && w.node == node then front + [w.time] else front
  }

  lemma {:induction false} KeyTimesAppend(a: seq<Write>, b: seq<Write>, node: string)
    ensures KeyTimes(a + b, node) == KeyTimes(a, node) + KeyTimes(b, node)
    decreases |b|
  {
    if b == [] {
      assert a + b == a;
    } else {
      assert (a + b)[..|a + b| - 1] == a + b[..|b| - 1];
      KeyTimesAppend(a, b[..|b| - 1], node);
    }
  }

  /** Writes that set no key on `node` leave its key times alone. */
  lemma {:induction false} KeyTimesElsewhere(log: seq<Write>, node: string)
    requires forall k :: 0 <= k < |log| ==> !(log[k].SetKey? && log[k].node == node)
    ensures KeyTimes(log, node) == []
    decreases |log|
  {
    if log != [] {
      KeyTimesElsewhere(log[..|log| - 1], node);
    }
  }

  // ---------------------------------------------------------------------
  // baking one particle system

  /** What the host reports about one particle system with an instancer:
      the transform's name, the instanced objects, whether an object index
      attribute and an aim direction attribute are set, the particle count
      at each frame and the object index reading of each particle at each
      frame. */
  datatype System = System(
    pTrans: string,
    objects: seq<string>,
    hasObjectIndex: bool,
    hasAimDirection: bool,
    count: int -> nat,
    reading: (int, nat) -> Reading)

  /** The state the bake loop carries: the node names the scene holds, the
      writes so far, the `instances` list, and `false` once an error has
      been raised. */
  datatype Bake = Bake(nodes: set<string>, log: seq<Write>, instances: seq<string>, ok: bool)

  /** The ten keys set on an instance at the current frame. */
  function BakeKeys(node: string, fr: int): (r: seq<Write>)
    ensures |r| == |BakeAttrs|
    ensures forall k :: 0 <= k < |r| ==> r[k] == SetKey(node, BakeAttrs[k], fr, Current)
  {
    seq(|BakeAttrs|, (k: int) requires 0 <= k < |BakeAttrs| => SetKey(node, BakeAttrs[k], fr, Current))
  }

  /** Remember the instance (once) and key it at frame `fr`. */
  function Record(b: Bake, name: string, fr: int): Bake {
    b.(instances := if name in b.instances then b.instances else b.instances + [name],
       log := b.log + BakeKeys(name, fr))
  }

  /** Particle `i` at frame `fr`: pick the instanced object with the index
      as written, reuse the node named after the particle or duplicate the
      object under that name, then record and key it. With an aim direction
      attribute the particle raises: the text handed to `mel.eval` holds a
      Python list, `unit(<<['1.0', '0.0', '0.0']>>)`, which is no MEL. */
  function Step(sys: System, b: Bake, fr: int, i: nat): Bake {
    if !b.ok then b
    else
      var index := InstanceIndexAsWritten(sys.hasObjectIndex, sys.reading(fr, i));
      var name := InstName(sys.pTrans, i);
      if index.None? || sys.hasAimDirection then b.(ok := false)
      else if name in b.nodes then Record(b, name, fr)
      else match PyIndex(sys.objects, index.value)
        case None => b.(ok := false)
        case Some(source) =>
          Record(b.(nodes := b.nodes + {name}, log := b.log + [Duplicate(source, name)]), name, fr)
  }

  /** A scalar reading of 2 with three objects duplicates the first object,
      as the code is written. */
  lemma {:induction false} StepScalarDuplicatesFirst(sys: System, b: Bake, fr: int, i: nat)
    requires b.ok && sys.hasObjectIndex && !sys.hasAimDirection && |sys.objects| == 3
    requires sys.reading(fr, i) == Scalar(2.0) && InstName(sys.pTrans, i) !in b.nodes
    ensures var r := Step(sys, b, fr, i);
      r.ok && r.log[|b.log|] == Duplicate(sys.objects[0], InstName(sys.pTrans, i))
  {
    ScalarIndexCollapses();
  }

  /** A vector reading past the object list raises `IndexError` on
      `objects[instanceIndex]` when a duplicate is needed. */
  lemma {:induction false} StepVectorPastObjectsRaises(sys: System, b: Bake, fr: int, i: nat)
    requires b.ok && sys.hasObjectIndex && |sys.objects| == 2
    requires sys.reading(fr, i) == Vector([2.5, 0.0, 0.0]) && InstName(sys.pTrans, i) !in b.nodes
    ensures !Step(sys, b, fr, i).ok
  {
    assert Trunc(2.5) == 2;
  }

  /** Particles `0 .. n-1` at frame `fr`, in order. */
  function Particles(sys: System, b: Bake, fr: int, n: nat): Bake
    decreases n
  {
    if n == 0 then b else Step(sys, Particles(sys, b, fr, n - 1), fr, n - 1)
  }

  /** Every particle at every frame of `frames`, frame by frame. */
  function Frames(sys: System, b: Bake, frames: seq<int>): Bake
    decreases |frames|
  {
    if frames == [] then b
    else
      var fr := frames[|frames| - 1];
      Particles(sys, Frames(sys, b, frames[..|frames| - 1]), fr, sys.count(fr))
  }

  /** The largest particle count over `frames`. */
  function MaxCount(count: int -> nat, frames: seq<int>): (r: nat)
    ensures forall k :: 0 <= k < |frames| ==> count(frames[k]) <= r
    ensures frames == [] ==> r == 0
    ensures frames != [] ==> exists k :: 0 <= k < |frames| && count(frames[k]) == r
    decreases |frames|
  {
    if frames == [] then 0
    else
      var front := frames[..|frames| - 1];
      var m := MaxCount(count, front);
      assert forall k :: 0 <= k < |front| ==> front[k] == frames[k];
      Max(m, count(frames[|frames| - 1]))
  }

  /** Once an error is raised nothing further happens. */
  lemma {:induction false} ParticlesFailed(sys: System, b: Bake, fr: int, k: nat, n: nat)
    requires k <= n && !Particles(sys, b, fr, k).ok
    ensures Particles(sys, b, fr, n) == Particles(sys, b, fr, k)
    decreases n
  {
    if n > k {
      ParticlesFailed(sys, b, fr, k, n - 1);
    }
  }

  lemma {:induction false} FramesFailed(sys: System, b: Bake, frames: seq<int>, k: nat)
    requires k <= |frames| && !Frames(sys, b, frames[..k]).ok
    ensures Frames(sys, b, frames) == Frames(sys, b, frames[..k])
    decreases |frames|
  {
    if |frames| > k {
      var front := frames[..|frames| - 1];
      assert front[..k] == frames[..k];
      FramesFailed(sys, b, front, k);
      var fr := frames[|frames| - 1];
      ParticlesFailed(sys, Frames(sys, b, front), fr, 0, sys.count(fr));
    } else {
      assert frames[..k] == frames;
    }
  }

  /** A run that raised nothing lists the particles' instances in order of
      their first appearance. */
  lemma {:induction false} ParticlesInstances(sys: System, b: Bake, fr: int, n: nat)
    requires Particles(sys, b, fr, n).ok
    ensures Particles(sys, b, fr, n).instances == AddUnseen(b.instances, ParticleNames(sys.pTrans, n))
    decreases n
  {
    if n > 0 {
      var prev := Particles(sys, b, fr, n - 1);
      assert prev.ok;
      ParticlesInstances(sys, b, fr, n - 1);
      ParticleNamesSnoc(sys.pTrans, n);
      AddUnseenSnoc(b.instances, ParticleNames(sys.pTrans, n - 1), InstName(sys.pTrans, n - 1));
    }
  }

  /** After a bake without error, `instances` is
      `<t>_geo_0000, <t>_geo_0001, ...` up to the largest particle count
      over the frames: each name once, in particle order. */
  lemma {:induction false} FramesInstances(sys: System, b: Bake, frames: seq<int>, m: nat)
    requires b.instances == ParticleNames(sys.pTrans, m)
    requires Frames(sys, b, frames).ok
    ensures Frames(sys, b, frames).instances == ParticleNames(sys.pTrans, Max(m, MaxCount(sys.count, frames)))
    decreases |frames|
  {
    if frames != [] {
      var front := frames[..|frames| - 1];
      var fr := frames[|frames| - 1];
      var prev := Frames(sys, b, front);
      if !prev.ok {
        ParticlesFailed(sys, prev, fr, 0, sys.count(fr));
      }
      FramesInstances(sys, b, front, m);
      ParticlesInstances(sys, prev, fr, sys.count(fr));
      AddUnseenParticleNames(sys.pTrans, Max(m, MaxCount(sys.count, front)), sys.count(fr));
    }
  }

  /** The instances of a bake without error never repeat. */
  lemma {:induction false} BakeInstancesNoDup(sys: System, nodes: set<string>, log: seq<Write>, frames: seq<int>)
    requires Frames(sys, Bake(nodes, log, [], true), frames).ok
    ensures var r := Frames(sys, Bake(nodes, log, [], true), frames);
      r.instances == ParticleNames(sys.pTrans, MaxCount(sys.count, frames)) && NoDup(r.instances)
  {
    assert ParticleNames(sys.pTrans, 0) == [];
    FramesInstances(sys, Bake(nodes, log, [], true), frames, 0);
    ParticleNamesNoDup(sys.pTrans, MaxCount(sys.count, frames));
  }

  /** With an aim direction attribute the first particle raises, so a frame
      bakes without error only when it has no particle, and then changes
      nothing. */
  lemma {:induction false} ParticlesAimRaises(sys: System, b: Bake, fr: int, n: nat)
    requires sys.hasAimDirection
    ensures Particles(sys, b, fr, n).ok <==> b.ok && n == 0
    ensures n == 0 ==> Particles(sys, b, fr, n) == b
    decreases n
  {
    if n > 0 {
      ParticlesAimRaises(sys, b, fr, n - 1);
    }
  }

  /** With an aim direction attribute a bake ends without error exactly when
      no frame of the range has a particle. */
  lemma {:induction false} FramesAimRaises(sys: System, b: Bake, frames: seq<int>)
    requires sys.hasAimDirection
    ensures Frames(sys, b, frames).ok <==> b.ok && MaxCount(sys.count, frames) == 0
    decreases |frames|
  {
    if frames != [] {
      var front := frames[..|frames| - 1];
      var fr := frames[|frames| - 1];
      FramesAimRaises(sys, b, front);
      ParticlesAimRaises(sys, Frames(sys, b, front), fr, sys.count(fr));
    }
  }

  /** A write the bake of `sys` may add to a scene that held `nodes`, once
      `instances` lists the instances: a duplicate of an instanced object
      under a name the scene did not hold, or a non-zero key of one of the
      ten attributes on an instance. */
  predicate OwnWrite(sys: System, nodes: set<string>, instances: seq<string>, w: Write) {
    || (w.Duplicate? && w.name !in nodes && w.name in instances && w.source in sys.objects)
    || (w.SetKey? && w.node in instances && w.value == Current && w.attr in BakeAttrs)
  }

  /** What holds of the bake state `b` reached from `b0`: the old writes
      stay, the scene gains exactly the instances that were not there,
      every new write is an own write, and no name is duplicated twice. */
  ghost predicate Consistent(sys: System, b0: Bake, b: Bake) {
    && |b0.log| <= |b.log| && b.log[..|b0.log|] == b0.log
    && (forall x :: x in b.nodes <==> x in b0.nodes || x in b.instances)
    && (forall k :: |b0.log| <= k < |b.log| ==> OwnWrite(sys, b0.nodes, b.instances, b.log[k]))
    && (forall k, k' :: |b0.log| <= k < k' < |b.log| && b.log[k].Duplicate? && b.log[k'].Duplicate?
          ==> b.log[k].name != b.log[k'].name)
  }

  lemma {:induction false} RecordConsistent(sys: System, b0: Bake, b: Bake, name: string, fr: int)
    requires Consistent(sys, b0, b) && name in b.nodes
    ensures Consistent(sys, b0, Record(b, name, fr))
  {
    var r := Record(b, name, fr);
    assert r.log == b.log + BakeKeys(name, fr);
    forall k | |b0.log| <= k < |r.log|
      ensures OwnWrite(sys, b0.nodes, r.instances, r.log[k])
    {
      if k < |b.log| {
        assert r.log[k] == b.log[k];
        assert OwnWrite(sys, b0.nodes, b.instances, b.log[k]);
      } else {
        assert r.log[k] == SetKey(name, BakeAttrs[k - |b.log|], fr, Current);
      }
    }
    assert r.log[..|b0.log|] == b.log[..|b0.log|];
    forall k, k' | |b0.log| <= k < k' < |r.log| && r.log[k].Duplicate? && r.log[k'].Duplicate?
      ensures r.log[k].name != r.log[k'].name
    {
      assert k' < |b.log|;
      assert r.log[k] == b.log[k] && r.log[k'] == b.log[k'];
    }
  }

  lemma {:induction false} DuplicateConsistent(sys: System, b0: Bake, b: Bake, name: string, source: string)
    requires Consistent(sys, b0, b) && name !in b.nodes && source in sys.objects
    ensures Consistent(sys, b0, b.(nodes := b.nodes + {name}, log := b.log + [Duplicate(source, name)],
                                    instances := b.instances + [name]))
  {
    var r := b.(nodes := b.nodes + {name}, log := b.log + [Duplicate(source, name)],
                instances := b.instances + [name]);
    forall k | |b0.log| <= k < |r.log|
      ensures OwnWrite(sys, b0.nodes, r.instances, r.log[k])
    {
      if k < |b.log| {
        assert r.log[k] == b.log[k];
        assert OwnWrite(sys, b0.nodes, b.instances, b.log[k]);
      }
    }
    assert r.log[..|b0.log|] == b.log[..|b0.log|];
    forall k, k' | |b0.log| <= k < k' < |r.log| && r.log[k].Duplicate? && r.log[k'].Duplicate?
      ensures r.log[k].name != r.log[k'].name
    {
      assert r.log[k] == b.log[k];
      if k' == |b.log| {
        assert OwnWrite(sys, b0.nodes, b.instances, b.log[k]);
        assert b.log[k].name in b.nodes;
      } else {
        assert r.log[k'] == b.log[k'];
      }
    }
  }

  lemma {:induction false} StepConsistent(sys: System, b0: Bake, b: Bake, fr: int, i: nat)
    requires Consistent(sys, b0, b)
    ensures Consistent(sys, b0, Step(sys, b, fr, i))
  {
    if b.ok {
      var index := InstanceIndexAsWritten(sys.hasObjectIndex, sys.reading(fr, i));
      var name := InstName(sys.pTrans, i);
      if index.Some? && !sys.hasAimDirection {
        if name in b.nodes {
          RecordConsistent(sys, b0, b, name, fr);
        } else if PyIndex(sys.objects, index.value).Some? {
          var source := PyIndex(sys.objects, index.value).value;
          var d := b.(nodes := b.nodes + {name}, log := b.log + [Duplicate(source, name)]);
          var d' := d.(instances := d.instances + [name]);
          assert name !in b.instances;
          DuplicateConsistent(sys, b0, b, name, source);
          RecordConsistent(sys, b0, d', name, fr);
          assert Record(d, name, fr) == Record(d', name, fr);
        }
      }
    }
  }

  lemma {:induction false} ParticlesConsistent(sys: System, b0: Bake, b: Bake, fr: int, n: nat)
    requires Consistent(sys, b0, b)
    ensures Consistent(sys, b0, Particles(sys, b, fr, n))
    decreases n
  {
    if n > 0 {
      ParticlesConsistent(sys, b0, b, fr, n - 1);
      StepConsistent(sys, b0, Particles(sys, b, fr, n - 1), fr, n - 1);
    }
  }

  lemma {:induction false} FramesConsistent(sys: System, b0: Bake, b: Bake, frames: seq<int>)
    requires Consistent(sys, b0, b)
    ensures Consistent(sys, b0, Frames(sys, b, frames))
    decreases |frames|
  {
    if frames != [] {
      var front := frames[..|frames| - 1];
      var fr := frames[|frames| - 1];
      FramesConsistent(sys, b0, b, front);
      ParticlesConsistent(sys, b0, Frames(sys, b, front), fr, sys.count(fr));
    }
  }

  /** Whatever the frames and whether or not an error is raised, the bake
      keeps every earlier write, adds to the scene exactly the instances it
      did not hold, reuses every node already there (no duplicate is made
      under its name), duplicates each name at most once and only from an
      instanced object, and sets only non-zero keys on its instances. */
  lemma {:induction false} BakeConsistent(sys: System, nodes: set<string>, log: seq<Write>, frames: seq<int>)
    ensures Consistent(sys, Bake(nodes, log, [], true), Frames(sys, Bake(nodes, log, [], true), frames))
  {
    var b0 := Bake(nodes, log, [], true);
    assert log[..|log|] == log;
    FramesConsistent(sys, b0, b0, frames);
  }

  // ---------------------------------------------------------------------
  // the cleanup pass

  /** One attribute at key time `fr`: a zero key on the next frame, then on
      the previous frame, each only when that frame holds no key. */
  function AttrCleanup(node: string, keys: seq<int>, fr: int, a: Attr): (r: seq<Write>)
    ensures |r| <= 2
  {
    (if fr + 1 !in keys then [SetKey(node, a, fr + 1, Zero)] else [])
    + (if fr - 1 !in keys then [SetKey(node, a, fr - 1, Zero)] else [])
  }

  /** The attributes `attrs` at key time `fr`, in order. */
  function AttrsCleanup(node: string, keys: seq<int>, fr: int, attrs: seq<Attr>): (r: seq<Write>)
    ensures |r| <= 2 * |attrs|
    decreases |attrs|
  {
    if attrs == [] then []
    else AttrsCleanup(node, keys, fr, attrs[..|attrs| - 1]) + AttrCleanup(node, keys, fr, attrs[|attrs| - 1])
  }

  /** The writes for one key time: a zero key of each attribute on the
      neighbouring frames that hold no key. */
  lemma {:induction false} AttrsCleanupIff(node: string, keys: seq<int>, fr: int, attrs: seq<Attr>, w: Write)
    ensures w in AttrsCleanup(node, keys, fr, attrs) <==>
      && w.SetKey? && w.node == node && w.value == Zero && w.attr in attrs
      && (w.time == fr + 1 || w.time == fr - 1) && w.time !in keys
    decreases |attrs|
  {
    if attrs != [] {
      var front := attrs[..|attrs| - 1];
      var a := attrs[|attrs| - 1];
      AttrsCleanupIff(node, keys, fr, front, w);
      assert forall x :: x in attrs <==> x in front || x == a;
    }
  }

  /** The cleanup writes for the key times `ks`, one time after the other. */
  function KeysCleanup(node: string, keys: seq<int>, ks: seq<int>): (r: seq<Write>)
    ensures |r| <= 8 * |ks|
    decreases |ks|
  {
    if ks == [] then []
    else KeysCleanup(node, keys, ks[..|ks| - 1]) + AttrsCleanup(node, keys, ks[|ks| - 1], CleanupAttrs)
  }

  /** The cleanup of the instances `insts` on a scene whose writes are
      `log`, in order; each instance's key times are read from the scene as
      the cleanup of the instances before it left it. */
  function CleanupLog(log: seq<Write>, insts: seq<string>): seq<Write>
    decreases |insts|
  {
    if insts == [] then []
    else
      var prev := CleanupLog(log, insts[..|insts| - 1]);
      var keys := KeyTimes(log + prev, insts[|insts| - 1]);
      prev + KeysCleanup(insts[|insts| - 1], keys, keys)
  }

  /** The pass writes only zero keys, and only on the instances. */
  lemma {:induction false} CleanupLogWrites(log: seq<Write>, insts: seq<string>, w: Write)
    requires w in CleanupLog(log, insts)
    ensures w.SetKey? && w.node in insts && w.value == Zero
    decreases |insts|
  {
    var front := insts[..|insts| - 1];
    var name := insts[|insts| - 1];
    var prev := CleanupLog(log, front);
    var keys := KeyTimes(log + prev, name);
    if w in prev {
      CleanupLogWrites(log, front, w);
      assert w.node in insts;
    } else {
      KeysCleanupIff(name, keys, keys, w);
    }
  }

  /** The same pass with every instance's key times read from the scene as
      it was before the pass began. */
  function CleanupFromStart(log: seq<Write>, insts: seq<string>): seq<Write>
    decreases |insts|
  {
    if insts == [] then []
    else
      var name := insts[|insts| - 1];
      var keys := KeyTimes(log, name);
      CleanupFromStart(log, insts[..|insts| - 1]) + KeysCleanup(name, keys, keys)
  }

  /** The cleanup writes on a node, characterised: a zero key of scale or
      visibility at a frame that holds no key but is next to one. In
      particular no existing key time is ever written. */
  lemma {:induction false} KeysCleanupIff(node: string, keys: seq<int>, ks: seq<int>, w: Write)
    ensures w in KeysCleanup(node, keys, ks) <==>
      && w.SetKey? && w.node == node && w.value == Zero && w.attr in CleanupAttrs
      && w.time !in keys && (w.time - 1 in ks || w.time + 1 in ks)
    decreases |ks|
  {
    if ks != [] {
      var front := ks[..|ks| - 1];
      var fr := ks[|ks| - 1];
      KeysCleanupIff(node, keys, front, w);
      AttrsCleanupIff(node, keys, fr, CleanupAttrs, w);
      assert forall t :: t in ks <==> t in front || t == fr;
    }
  }

  /** The pass as the source runs it: for an instance whose keys are
      `keys`, a zero key on `sx`, `sy`, `sz` and `v` at exactly the frames
      next to a key that hold no key themselves. */
  lemma {:induction false} CleanupIff(log: seq<Write>, node: string, w: Write)
    ensures var keys := KeyTimes(log, node);
      w in KeysCleanup(node, keys, keys) <==>
      && w.SetKey? && w.node == node && w.value == Zero && w.attr in CleanupAttrs
      && w.time !in keys && (w.time - 1 in keys || w.time + 1 in keys)
  {
    KeysCleanupIff(node, KeyTimes(log, node), KeyTimes(log, node), w);
  }

  /** An instance keyed on the frames `a .. b` and nowhere else is hidden by
      zero keys on frame `a-1` and frame `b+1`, and on no other frame. */
  lemma {:induction false} CleanupSpan(node: string, keys: seq<int>, a: int, b: int)
    requires a <= b && forall t :: t in keys <==> a <= t <= b
    ensures forall w :: w in KeysCleanup(node, keys, keys) ==> w.SetKey? && (w.time == a - 1 || w.time == b + 1)
    ensures forall x :: x in CleanupAttrs ==>
      SetKey(node, x, a - 1, Zero) in KeysCleanup(node, keys, keys)
      && SetKey(node, x, b + 1, Zero) in KeysCleanup(node, keys, keys)
  {
    forall w | w in KeysCleanup(node, keys, keys)
      ensures w.SetKey? && (w.time == a - 1 || w.time == b + 1)
    {
      KeysCleanupIff(node, keys, keys, w);
    }
    forall x | x in CleanupAttrs
      ensures SetKey(node, x, a - 1, Zero) in KeysCleanup(node, keys, keys)
      ensures SetKey(node, x, b + 1, Zero) in KeysCleanup(node, keys, keys)
    {
      KeysCleanupIff(node, keys, keys, SetKey(node, x, a - 1, Zero));
      KeysCleanupIff(node, keys, keys, SetKey(node, x, b + 1, Zero));
    }
  }

  /** When no instance repeats, the cleanup of one instance never sees the
      zero keys written for another: every instance's key times are the
      ones it had before the pass, so zero keys never cause more zero keys. */
  lemma {:induction false} CleanupReadsOriginalKeys(log: seq<Write>, insts: seq<string>)
    requires NoDup(insts)
    ensures CleanupLog(log, insts) == CleanupFromStart(log, insts)
    decreases |insts|
  {
    if insts != [] {
      var front := insts[..|insts| - 1];
      var name := insts[|insts| - 1];
      assert NoDup(front);
      LastNotInFront(insts);
      CleanupReadsOriginalKeys(log, front);
      var prev := CleanupLog(log, front);
      OtherNodes(log, front, name);
      KeyTimesAppend(log, prev, name);
      KeyTimesElsewhere(prev, name);
      assert KeyTimes(log + prev, name) == KeyTimes(log, name);
    }
  }

  lemma {:induction false} LastNotInFront<T>(s: seq<T>)
    requires NoDup(s) && s != []
    ensures s[|s| - 1] !in s[..|s| - 1]
  {
  }

  lemma {:induction false} OtherNodes(log: seq<Write>, insts: seq<string>, node: string)
    requires node !in insts
    ensures var r := CleanupLog(log, insts);
      forall k :: 0 <= k < |r| ==> !(r[k].SetKey? && r[k].node == node)
  {
    var r := CleanupLog(log, insts);
    forall k | 0 <= k < |r|
      ensures !(r[k].SetKey? && r[k].node == node)
    {
      CleanupLogWrites(log, insts, r[k]);
    }
  }

  // ---------------------------------------------------------------------
  // all particle systems

  /** The scene after some systems have been baked: its node names, its
      writes, the bake group created last, and `false` once an error has
      been raised. */
  datatype Outcome = Outcome(nodes: set<string>, log: seq<Write>, group: Option<string>, ok: bool)

  /** The name of the group created for a system's baked objects. */
  function GroupName(pTrans: string): string {
    pTrans + "_BakedObjects"
  }

  /** One entry of `nParticles`: `None` for a system without an instancer. A
      system without an instancer bakes nothing but still parents its (empty)
      `instances` under the group made last, which does not exist when no
      earlier system had an instancer (the source raises a `NameError`). */
  function SystemRun(st: Outcome, sys: Option<System>, frames: seq<int>): Outcome {
    if !st.ok then st
    else match sys
      case None =>
        if st.group.None? then st.(ok := false)
        else st.(log := st.log + [Parent([], st.group.value)])
      case Some(sys) =>
        var group := GroupName(sys.pTrans);
        var b := Frames(sys, Bake(st.nodes + {group}, st.log + [Group(group)], [], true), frames);
        if !b.ok then Outcome(b.nodes, b.log, Some(group), false)
        else
          var log := b.log + [Parent(b.instances, group)];
          Outcome(b.nodes, log + CleanupLog(log, b.instances), Some(group), true)
  }

  /** The systems in order. */
  function RunAll(st: Outcome, systems: seq<Option<System>>, frames: seq<int>): Outcome
    decreases |systems|
  {
    if systems == [] then st
    else SystemRun(RunAll(st, systems[..|systems| - 1], frames), systems[|systems| - 1], frames)
  }

  /** For a system with an instancer baked without error, the writes are:
      the group, the bake, the parenting of `<t>_geo_0000 ...` up to the
      largest particle count, then for each instance in that order the zero
      keys around the keys it had once the bake was done. */
  lemma {:induction false} SystemRunShape(st: Outcome, sys: System, frames: seq<int>)
    requires st.ok
    requires SystemRun(st, Some(sys), frames).ok
    ensures var group := GroupName(sys.pTrans);
      var b := Frames(sys, Bake(st.nodes + {group}, st.log + [Group(group)], [], true), frames);
      var insts := ParticleNames(sys.pTrans, MaxCount(sys.count, frames));
      var log := b.log + [Parent(insts, group)];
      && b.instances == insts
      && SystemRun(st, Some(sys), frames).log == log + CleanupFromStart(log, insts)
  {
    var group := GroupName(sys.pTrans);
    var b := Frames(sys, Bake(st.nodes + {group}, st.log + [Group(group)], [], true), frames);
    BakeInstancesNoDup(sys, st.nodes + {group}, st.log + [Group(group)], frames);
    CleanupReadsOriginalKeys(b.log + [Parent(b.instances, group)], b.instances);
  }

  // ---------------------------------------------------------------------
  // the scene

  /** The scene the bake works on: the names of its nodes and every write
      made to it so far. */
  class Scene {
    var nodes: set<string>
    var log: seq<Write>

    constructor (nodes: set<string>, log: seq<Write>)
      ensures this.nodes == nodes && this.log == log
    {
      this.nodes := nodes;
      this.log := log;
    }

    /** `for attr in [...]: pm.setKeyframe(name, at=attr)` at frame `fr`. */
    method KeyInstance(name: string, fr: int)
      modifies this
      ensures nodes == old(nodes) && log == old(log) + BakeKeys(name, fr)
    {
      for k := 0 to |BakeAttrs|
        invariant nodes == old(nodes) && log == old(log) + BakeKeys(name, fr)[..k]
      {
        assert BakeKeys(name, fr)[..k + 1] == BakeKeys(name, fr)[..k] + [SetKey(name, BakeAttrs[k], fr, Current)];
        log := log + [SetKey(name, BakeAttrs[k], fr, Current)];
      }
      assert BakeKeys(name, fr)[..|BakeAttrs|] == BakeKeys(name, fr);
    }

    /** Particle `i` at frame `fr`; `ok` is `false` when it raises. */
    method BakeParticle(sys: System, fr: int, i: nat, instances: seq<string>)
      returns (instances': seq<string>, ok: bool)
      modifies this
      ensures Bake(nodes, log, instances', ok) == Step(sys, Bake(old(nodes), old(log), instances, true), fr, i)
    {
      instances' := instances;
      var instanceIndex := InstanceIndexAsWritten(sys.hasObjectIndex, sys.reading(fr, i));
      if instanceIndex.None? {
        return instances, false;
      }
      if sys.hasAimDirection {
        // `mel.eval('unit(<<%s>>)' % [...])` raises
        return instances, false;
      }
      var instName := InstName(sys.pTrans, i);
      if instName !in nodes {
        var source := PyIndex(sys.objects, instanceIndex.value);
        if source.None? {
          return instances, false;
        }
        nodes := nodes + {instName};
        log := log + [Duplicate(source.value, instName)];
      }
      if instName !in instances' {
        instances' := instances' + [instName];
      }
      KeyInstance(instName, fr);
      ok := true;
    }

    /** Every particle at frame `fr`; `ok` is `false` when one raises. */
    method BakeFrame(sys: System, fr: int, instances: seq<string>)
      returns (instances': seq<string>, ok: bool)
      modifies this
      ensures Bake(nodes, log, instances', ok)
           == Particles(sys, Bake(old(nodes), old(log), instances, true), fr, sys.count(fr))
    {
      ghost var base := Bake(nodes, log, instances, true);
      instances' := instances;
      var pCount := sys.count(fr);
      for i := 0 to pCount
        invariant Bake(nodes, log, instances', true) == Particles(sys, base, fr, i)
      {
        var particleOk;
        instances', particleOk := BakeParticle(sys, fr, i, instances');
        if !particleOk {
          ParticlesFailed(sys, base, fr, i + 1, pCount);
          return instances', false;
        }
      }
      ok := true;
    }

    /** The frame and particle loops of one system with an instancer. */
    method BakeSystem(sys: System, startFrame: int, endFrame: int)
      returns (instances: seq<string>, ok: bool)
      modifies this
      ensures Bake(nodes, log, instances, ok)
           == Frames(sys, Bake(old(nodes), old(log), [], true), Range(startFrame, endFrame + 1))
    {
      ghost var b0 := Bake(nodes, log, [], true);
      instances := [];
      var frames := Range(startFrame, endFrame + 1);
      var f := 0;
      while f < |frames|
        invariant 0 <= f <= |frames|
        invariant Bake(nodes, log, instances, true) == Frames(sys, b0, frames[..f])
      {
        assert frames[..f + 1][..f] == frames[..f];
        var frameOk;
        instances, frameOk := BakeFrame(sys, frames[f], instances);
        if !frameOk {
          FramesFailed(sys, b0, frames, f + 1);
          return instances, false;
        }
        f := f + 1;
      }
      assert frames[..|frames|] == frames;
      ok := true;
    }

    /** The zero keys of every cleanup attribute at key time `fr`. */
    method CleanupFrame(name: string, keys: seq<int>, fr: int)
      modifies this
      ensures nodes == old(nodes) && log == old(log) + AttrsCleanup(name, keys, fr, CleanupAttrs)
    {
      for k := 0 to |CleanupAttrs|
        invariant nodes == old(nodes) && log == old(log) + AttrsCleanup(name, keys, fr, CleanupAttrs[..k])
      {
        var attr := CleanupAttrs[k];
        ghost var before := log;
        if fr + 1 !in keys {
          log := log + [SetKey(name, attr, fr + 1, Zero)];
        }
        if fr - 1 !in keys {
          log := log + [SetKey(name, attr, fr - 1, Zero)];
        }
        assert log == before + AttrCleanup(name, keys, fr, attr);
        AppendAssoc(old(log), AttrsCleanup(name, keys, fr, CleanupAttrs[..k]), AttrCleanup(name, keys, fr, attr));
        assert CleanupAttrs[..k + 1][..k] == CleanupAttrs[..k];
      }
      assert CleanupAttrs[..|CleanupAttrs|] == CleanupAttrs;
    }

    /** One instance: read its key times once, then clean up around each. */
    method CleanupInstance(name: string)
      modifies this
      ensures nodes == old(nodes)
      ensures log == old(log) + KeysCleanup(name, KeyTimes(old(log), name), KeyTimes(old(log), name))
    {
      var keys := KeyTimes(log, name);
      for k := 0 to |keys|
        invariant nodes == old(nodes) && log == old(log) + KeysCleanup(name, keys, keys[..k])
      {
        ghost var done := KeysCleanup(name, keys, keys[..k]);
        CleanupFrame(name, keys, keys[k]);
        AppendAssoc(old(log), done, AttrsCleanup(name, keys, keys[k], CleanupAttrs));
        assert keys[..k + 1][..k] == keys[..k];
      }
      assert keys[..|keys|] == keys;
    }

    /** `for instObject in instances: ...` after the bake of a system. */
    method Cleanup(instances: seq<string>)
      modifies this
      ensures nodes == old(nodes) && log == old(log) + CleanupLog(old(log), instances)
    {
      for j := 0 to |instances|
        invariant nodes == old(nodes) && log == old(log) + CleanupLog(old(log), instances[..j])
      {
        ghost var done := CleanupLog(old(log), instances[..j]);
        ghost var keys := KeyTimes(log, instances[j]);
        CleanupInstance(instances[j]);
        AppendAssoc(old(log), done, KeysCleanup(instances[j], keys, keys));
        assert instances[..j + 1][..j] == instances[..j];
      }
      assert instances[..|instances|] == instances;
    }

    /** `bakeNParticles(nParticles, startFrame, endFrame)`. */
    method BakeNParticles(systems: seq<Option<System>>, startFrame: int, endFrame: int)
      returns (ok: bool)
      modifies this
      ensures var r := RunAll(Outcome(old(nodes), old(log), None, true), systems, Range(startFrame, endFrame + 1));
        nodes == r.nodes && log == r.log && ok == r.ok
    {
      ghost var st0 := Outcome(nodes, log, None, true);
      ghost var frames := Range(startFrame, endFrame + 1);
      var bakeGroup: Option<string> := None;
      for n := 0 to |systems|
        invariant Outcome(nodes, log, bakeGroup, true) == RunAll(st0, systems[..n], frames)
      {
        assert systems[..n + 1][..n] == systems[..n];
        var instances: seq<string> := [];
        if systems[n].Some? {
          var sys := systems[n].value;
          var group := GroupName(sys.pTrans);
          nodes := nodes + {group};
          log := log + [Group(group)];
          bakeGroup := Some(group);
          var bakedOk;
          instances, bakedOk := BakeSystem(sys, startFrame, endFrame);
          if !bakedOk {
            RunAllFailed(st0, systems, frames, n + 1);
            return false;
          }
        }
        if bakeGroup.None? {
          RunAllFailed(st0, systems, frames, n + 1);
          return false;
        }
        log := log + [Parent(instances, bakeGroup.value)];
        Cleanup(instances);
      }
      assert systems[..|systems|] == systems;
      ok := true;
    }
  }

  lemma {:induction false} RunAllFailed(st: Outcome, systems: seq<Option<System>>, frames: seq<int>, k: nat)
    requires k <= |systems| && !RunAll(st, systems[..k], frames).ok
    ensures RunAll(st, systems, frames) == RunAll(st, systems[..k], frames)
    decreases |systems|
  {
    if |systems| > k {
      var front := systems[..|systems| - 1];
      assert front[..k] == systems[..k];
      RunAllFailed(st, front, frames, k);
    } else {
      assert systems[..k] == systems;
    }
  }

  lemma AppendAssoc<T>(a: seq<T>, b: seq<T>, c: seq<T>)
    ensures a + b + c == a + (b + c)
  {
  }
}
