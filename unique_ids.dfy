/**
  SystemID: a host identifier worked out by an ordered chain of
  strategies, with a random identifier as the fallback when none of them
  gives a value.

  What the host offers is passed in: the text of /proc/cpuinfo (or None
  when the file cannot be read), the node value uuid.getnode() reports
  (or None when the platform call fails) and the 128-bit values
  uuid.uuid4() draws.
 */
module UniqueIds {
  import opened Wrappers
  import Hex
  import CpuInfo

  /** The methods an id_methods list may name. */
  datatype Strategy = RaspberryPiCpu | UuidGetnode | RandomFallback

  /** What one call of a strategy produced: a string, None, or an exception. */
  datatype Outcome = Value(value: string) | NoResult | Raised

  /** A value uuid.uuid4() can draw: 128 bits. */
  type Uuid128 = n: nat | n < 0x1_0000_0000_0000_0000_0000_0000_0000_0000

  /** The host state the strategies read. */
  datatype Host = Host(cpuinfo: Option<string>, node: Option<nat>, uuid4: Uuid128)

  lemma Pow16Is128Bits()
    ensures Hex.Pow16(32) == 0x1_0000_0000_0000_0000_0000_0000_0000_0000
  {
    assert Hex.Pow16(8) == 0x1_0000_0000;
    assert Hex.Pow16(16) == 0x1_0000_0000_0000_0000 by { Pow16Add8(8); }
    assert Hex.Pow16(24) == 0x1_0000_0000_0000_0000_0000_0000 by { Pow16Add8(16); }
    Pow16Add8(24);
  }

  lemma Pow16Add8(k: nat)
    ensures Hex.Pow16(k + 8) == Hex.Pow16(k) * 0x1_0000_0000
  {
    var p := Hex.Pow16(k);
    assert Hex.Pow16(k + 1) == 16 * p;
    assert Hex.Pow16(k + 2) == 16 * (16 * p);
    assert Hex.Pow16(k + 3) == 16 * (16 * (16 * p));
    assert Hex.Pow16(k + 4) == 16 * (16 * (16 * (16 * p)));
    assert Hex.Pow16(k + 5) == 16 * (16 * (16 * (16 * (16 * p))));
    assert Hex.Pow16(k + 6) == 16 * (16 * (16 * (16 * (16 * (16 * p)))));
    assert Hex.Pow16(k + 7) == 16 * (16 * (16 * (16 * (16 * (16 * (16 * p))))));
  }

  /** SystemID.uuid_getnode: 'uuid.getnode_' and the node in lowercase hex, unpadded. */
  function UuidGetnodeId(node: nat): (id: string)
    ensures |id| > 13 && id[..13] == "uuid.getnode_"
    ensures Hex.AllHexDigits(id[13..]) && Hex.HexValue(id[13..]) == node
    ensures |id| > 14 ==> id[13] != '0'
  {
    var id := "uuid.getnode_" + Hex.LowerHex(node);
    assert id[13..] == Hex.LowerHex(node);
    id
  }

  /** SystemID.random_fallback: uuid.uuid4().hex, the 32 hex digits of the drawn value. */
  function RandomFallbackId(r: Uuid128): (id: string)
    ensures |id| == 32 && Hex.AllHexDigits(id)
    ensures Hex.HexValue(id) == r
  {
    Pow16Is128Bits();
    Hex.FixedHex(r, 32)
  }

  lemma HexSnoc(t: string, c: char)
    requires Hex.AllHexDigits(t) && Hex.IsHexDigit(c)
    ensures Hex.AllHexDigits(t + [c])
    ensures Hex.HexValue(t + [c]) == 16 * Hex.HexValue(t) + Hex.DigitValue(c)
  {
    assert (t + [c])[..|t|] == t;
  }

  lemma UuidGetnodeExample()
    ensures UuidGetnodeId(163683361899416) == "uuid.getnode_94de80a44398"
  {
    var s0 := ['9'];
    assert Hex.HexValue(s0) == 0x9;
    var s1 := s0 + ['4'];
    HexSnoc(s0, '4');
    assert Hex.HexValue(s1) == 0x94;
    var s2 := s1 + ['d'];
    HexSnoc(s1, 'd');
    assert Hex.HexValue(s2) == 0x94d;
    var s3 := s2 + ['e'];
    HexSnoc(s2, 'e');
    assert Hex.HexValue(s3) == 0x94de;
    var s4 := s3 + ['8'];
    HexSnoc(s3, '8');
    assert Hex.HexValue(s4) == 0x94de8;
    var s5 := s4 + ['0'];
    HexSnoc(s4, '0');
    assert Hex.HexValue(s5) == 0x94de80;
    var s6 := s5 + ['a'];
    HexSnoc(s5, 'a');
    assert Hex.HexValue(s6) == 0x94de80a;
    var s7 := s6 + ['4'];
    HexSnoc(s6, '4');
    assert Hex.HexValue(s7) == 0x94de80a4;
    var s8 := s7 + ['4'];
    HexSnoc(s7, '4');
    assert Hex.HexValue(s8) == 0x94de80a44;
    var s9 := s8 + ['3'];
    HexSnoc(s8, '3');
    assert Hex.HexValue(s9) == 0x94de80a443;
    var s10 := s9 + ['9'];
    HexSnoc(s9, '9');
    assert Hex.HexValue(s10) == 0x94de80a4439;
    var s11 := s10 + ['8'];
    HexSnoc(s10, '8');
    assert Hex.HexValue(s11) == 0x94de80a44398;
    assert s11 == "94de80a44398";
    Hex.LowerHexCanonical(s11, 163683361899416);
  }

  /** Two nodes give the same identifier only when they are the same node. */
  lemma UuidGetnodeInjective(m: nat, n: nat)
    requires UuidGetnodeId(m) == UuidGetnodeId(n)
    ensures m == n
  {
    assert UuidGetnodeId(m)[13..] == UuidGetnodeId(n)[13..];
  }

  lemma RandomFallbackInjective(r: Uuid128, q: Uuid128)
    requires RandomFallbackId(r) == RandomFallbackId(q)
    ensures r == q
  {
  }

  /**
    What calling one strategy on the host yields: raspberrypi_cpu raises
    when /proc/cpuinfo cannot be opened, uuid_getnode raises when the
    platform call does, random_fallback always gives a value; only
    raspberrypi_cpu on another machine returns None.
   */
  function RunStrategy(s: Strategy, h: Host): (r: Outcome)
    ensures r.Raised? <==> (s == RaspberryPiCpu && h.cpuinfo.None?) || (s == UuidGetnode && h.node.None?)
    ensures r.NoResult? <==>
      s == RaspberryPiCpu && h.cpuinfo.Some? && !CpuInfo.IsRaspberryPi(h.cpuinfo.value)
  {
    match s
    case RaspberryPiCpu =>
      if h.cpuinfo.None? then Raised
      else (match CpuInfo.RaspberrypiCpu(h.cpuinfo.value)
            case Some(id) => Value(id)
            case None => NoResult)
    case UuidGetnode =>
      if h.node.None? then Raised else Value(UuidGetnodeId(h.node.value))
    case RandomFallback => Value(RandomFallbackId(h.uuid4))
  }

  /** The list a fresh SystemID consults. */
  const DefaultMethods: seq<Strategy> := [RaspberryPiCpu, UuidGetnode]

  /**
    The index of the first strategy in `ms` whose call gives a value,
    None when none does.
   */
  function FirstValueIndex(ms: seq<Strategy>, probe: Strategy -> Outcome): (k: Option<nat>)
    ensures k.Some? ==> k.value < |ms| && probe(ms[k.value]).Value?
    ensures k.Some? ==> forall j :: 0 <= j < k.value ==> !probe(ms[j]).Value?
    ensures k.None? <==> forall j :: 0 <= j < |ms| ==> !probe(ms[j]).Value?
  {
    if ms == [] then None
    else if probe(ms[0]).Value? then Some(0)
    else
      match FirstValueIndex(ms[1..], probe)
      case None => None
      case Some(i) => Some(i + 1)
  }

  /**
    The identifier id_string settles on: the value of the first strategy
    that gives one, and the fallback when none does.
   */
  function Resolve(ms: seq<Strategy>, probe: Strategy -> Outcome, fallback: string): (id: string)
    ensures id == fallback || exists i :: 0 <= i < |ms| && probe(ms[i]) == Value(id)
  {
    if ms == [] then fallback
    else match probe(ms[0])
      case Value(v) => v
      case _ =>
        var id := Resolve(ms[1..], probe, fallback);
        assert forall i :: 0 <= i < |ms| - 1 ==> ms[1..][i] == ms[i + 1];
        id
  }

  /**
    A strategy that gives no value (it raises or returns None) can be taken
    out of the list without changing the identifier, wherever it stands.
   */
  lemma {:induction false} ResolveSkipsNoValue(a: seq<Strategy>, s: Strategy, b: seq<Strategy>,
                                               probe: Strategy -> Outcome, fallback: string)
    requires !probe(s).Value?
    ensures Resolve(a + [s] + b, probe, fallback) == Resolve(a + b, probe, fallback)
  {
    if a == [] {
      assert a + [s] + b == [s] + b && ([s] + b)[1..] == b && a + b == b;
    } else {
      assert (a + [s] + b)[0] == (a + b)[0] == a[0];
      assert (a + [s] + b)[1..] == a[1..] + [s] + b;
      assert (a + b)[1..] == a[1..] + b;
      ResolveSkipsNoValue(a[1..], s, b, probe, fallback);
    }
  }

  /** Resolve picks exactly the outcome at FirstValueIndex, or the fallback. */
  lemma {:induction false} ResolveByIndex(ms: seq<Strategy>, probe: Strategy -> Outcome, fallback: string)
    ensures FirstValueIndex(ms, probe).None? ==> Resolve(ms, probe, fallback) == fallback
    ensures FirstValueIndex(ms, probe).Some? ==>
      Resolve(ms, probe, fallback) == probe(ms[FirstValueIndex(ms, probe).value]).value
  {
    if ms != [] && !probe(ms[0]).Value? {
      ResolveByIndex(ms[1..], probe, fallback);
    }
  }

  /** The result is the value of the first strategy that gives one. */
  lemma ResolveFirstValue(ms: seq<Strategy>, probe: Strategy -> Outcome, fallback: string, i: nat)
    requires i < |ms| && probe(ms[i]).Value?
    requires forall j :: 0 <= j < i ==> !probe(ms[j]).Value?
    ensures Resolve(ms, probe, fallback) == probe(ms[i]).value
  {
    ResolveByIndex(ms, probe, fallback);
    var k := FirstValueIndex(ms, probe);
    assert k.Some?;
    assert k.value == i;
  }

  /** When no strategy gives a value, including an empty list, the fallback is the result. */
  lemma ResolveExhausted(ms: seq<Strategy>, probe: Strategy -> Outcome, fallback: string)
    requires forall j :: 0 <= j < |ms| ==> !probe(ms[j]).Value?
    ensures Resolve(ms, probe, fallback) == fallback
  {
    ResolveByIndex(ms, probe, fallback);
  }

  /**
    A raising strategy is skipped exactly as one returning None is: two
    probes that agree on every value give the same identifier.
   */
  lemma {:induction false} ResolveRaisedLikeNone(ms: seq<Strategy>, p: Strategy -> Outcome, q: Strategy -> Outcome, fallback: string)
    requires forall j :: 0 <= j < |ms| ==> (p(ms[j]).Value? <==> q(ms[j]).Value?)
    requires forall j :: 0 <= j < |ms| && p(ms[j]).Value? ==> p(ms[j]) == q(ms[j])
    ensures Resolve(ms, p, fallback) == Resolve(ms, q, fallback)
  {
    if ms != [] {
      assert p(ms[0]).Value? <==> q(ms[0]).Value?;
      if !p(ms[0]).Value? {
        assert forall j :: 0 <= j < |ms| - 1 ==> ms[1..][j] == ms[j + 1];
        ResolveRaisedLikeNone(ms[1..], p, q, fallback);
      }
    }
  }

  /**
    Short circuit: once a strategy gives a value, neither the strategies
    after it nor the fallback affect the identifier.
   */
  lemma {:induction false} ResolveShortCircuit(pre: seq<Strategy>, rest: seq<Strategy>, probe: Strategy -> Outcome, fallback: string, other: string)
    requires exists j :: 0 <= j < |pre| && probe(pre[j]).Value?
    ensures Resolve(pre + rest, probe, fallback) == Resolve(pre, probe, other)
  {
    assert pre != [];
    if !probe(pre[0]).Value? {
      var j :| 0 <= j < |pre| && probe(pre[j]).Value?;
      assert pre[1..][j - 1] == pre[j];
      assert (pre + rest)[1..] == pre[1..] + rest;
      ResolveShortCircuit(pre[1..], rest, probe, fallback, other);
    }
  }

  /**
    The identifier a fresh SystemID gives on a host: the Raspberry Pi
    identifier when /proc/cpuinfo shows a Pi, else the node identifier
    when the platform reports one, else the random identifier.
   */
  lemma DefaultResolution(h: Host)
    ensures Resolve(DefaultMethods, s => RunStrategy(s, h), RandomFallbackId(h.uuid4)) ==
      if h.cpuinfo.Some? && CpuInfo.IsRaspberryPi(h.cpuinfo.value) then
        CpuInfo.RaspberrypiCpu(h.cpuinfo.value).value
      else if h.node.Some? then UuidGetnodeId(h.node.value)
      else RandomFallbackId(h.uuid4)
  {
    var probe := s => RunStrategy(s, h);
    var fallback := RandomFallbackId(h.uuid4);
    assert DefaultMethods[1..] == [UuidGetnode] && [UuidGetnode][1..] == [];
    assert Resolve([], probe, fallback) == fallback;
  }

  /**
    The three kinds of identifier never coincide: a Raspberry Pi
    identifier starts with 'R', a node identifier with 'u', and a random
    identifier is hex digits only.
   */
  lemma IdentifierKindsDisjoint(text: string, node: nat, r: Uuid128)
    ensures CpuInfo.RaspberrypiCpu(text).Some? ==>
      CpuInfo.RaspberrypiCpu(text).value != UuidGetnodeId(node) &&
      CpuInfo.RaspberrypiCpu(text).value != RandomFallbackId(r)
    ensures UuidGetnodeId(node) != RandomFallbackId(r)
  {
    assert UuidGetnodeId(node)[0] == 'u';
    assert !Hex.IsHexDigit(UuidGetnodeId(node)[0]);
    if CpuInfo.RaspberrypiCpu(text).Some? {
      CpuInfo.RaspberrypiCpuShape(text);
      assert CpuInfo.RaspberrypiCpu(text).value[0] == 'R';
    }
  }

  /** The order and outcomes of the id_string test: None, raises, 'uuidgetnode'. */
  const TestMethods: seq<Strategy> := [RaspberryPiCpu, RandomFallback, UuidGetnode]

  function TestProbe(s: Strategy): Outcome {
    match s
    case RaspberryPiCpu => NoResult
    case RandomFallback => Raised
    case UuidGetnode => Value("uuidgetnode")
  }

  function FallbackTestProbe(s: Strategy): Outcome {
    match s
    case RaspberryPiCpu => NoResult
    case RandomFallback => Value("fallback")
    case UuidGetnode => NoResult
  }

  lemma RaisingStrategySkipped(fallback: string)
    ensures FirstValueIndex(TestMethods, TestProbe) == Some(2)
    ensures Resolve(TestMethods, TestProbe, fallback) == "uuidgetnode"
  {
    ResolveFirstValue(TestMethods, TestProbe, fallback, 2);
  }

  lemma ListedFallbackUsed(fallback: string)
    ensures FirstValueIndex(TestMethods, FallbackTestProbe) == Some(1)
    ensures Resolve(TestMethods, FallbackTestProbe, fallback) == "fallback"
  {
    ResolveFirstValue(TestMethods, FallbackTestProbe, fallback, 1);
  }

  /**
    SystemID, with the list of strategies it consults. In the source the
    default list is a class attribute that an instance may replace with its
    own; here each instance holds the list it consults.
   */
  class SystemId {
    var idMethods: seq<Strategy>

    constructor ()
      ensures idMethods == DefaultMethods
    {
      idMethods := DefaultMethods;
    }

    /**
      id_string: calls the strategies of idMethods in order, skipping
      those that return None or raise, and stops at the first value; with
      none, the fallback (what random_fallback() returns) is the result.
      `called` lists the strategies called, in order, and `via` is the
      index of the one that gave the identifier.
     */
    method IdString(probe: Strategy -> Outcome, fallback: string) returns (id: string, via: Option<nat>, called: seq<Strategy>)
      ensures id == Resolve(idMethods, probe, fallback)
      ensures via == FirstValueIndex(idMethods, probe)
      ensures via.Some? ==> called == idMethods[..via.value + 1]
      ensures via.None? ==> called == idMethods
    {
      var found: Option<string> := None;
      via := None;
      called := [];
      var i := 0;
      while i < |idMethods|
        invariant 0 <= i <= |idMethods|
        invariant called == idMethods[..i]
        invariant forall j :: 0 <= j < i ==> !probe(idMethods[j]).Value?
        invariant found.None? && via.None?
        decreases |idMethods| - i
      {
        var outcome := probe(idMethods[i]);
        called := called + [idMethods[i]];
        if outcome.Value? {
          found := Some(outcome.value);
          via := Some(i);
          break;
        }
        i := i + 1;
      }
      ResolveByIndex(idMethods, probe, fallback);
      if found.Some? {
        id := found.value;
        ResolveFirstValue(idMethods, probe, fallback, i);
      } else {
        id := fallback;
      }
    }
  }
}
