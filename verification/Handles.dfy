/**
 FIDESlib's registry of ciphertexts on the device: every ciphertext object owns one
 handle, so objects behave like values although the registry is shared and mutable.
 */
module Handles {
  import opened Packed

  /** Handles are 32-bit. */
  const HANDLES: nat := 0x1_0000_0000

  /** The k-th handle handed out, counting from zero: the counter starts at 1 and wraps around. */
  function Handle(k: nat): (h: nat)
    ensures h < HANDLES
  {
    (1 + k) % HANDLES
  }

  /** The first n handles are distinct and none is the null handle if and only if there are fewer than 2^32. */
  lemma HandlesAreGoodIff(n: nat)
    ensures n < 0x1_0000_0000 <==>
      && (forall k :: 0 <= k < n ==> Handle(k) != 0)
      && (forall i, j :: 0 <= i < j < n ==> Handle(i) != Handle(j))
  {
    if n >= HANDLES {
      assert Handle(HANDLES - 1) == 0;
    }
  }

  lemma HandleStep(k: nat)
    ensures Handle(k + 1) == (Handle(k) + 1) % HANDLES
  {
    ModAdd(1 + k, 1, HANDLES);
  }

  lemma HandleIs(k: nat)
    requires 1 + k < HANDLES
    ensures Handle(k) == 1 + k
  {}

  /** unordered_map::emplace: an entry that is there stays. */
  function Emplace(m: map<nat, Slots>, h: nat, v: Slots): map<nat, Slots> {
    if h in m then m else m[h := v]
  }

  // ---------- What a program over ciphertexts means ----------

  datatype Op = AddOp | SubOp | MultOp

  function Apply(op: Op, x: Slots, y: Slots): (r: Slots)
    requires |x| == |y|
    ensures |r| == |x|
  {
    match op
    case AddOp => Add(x, y)
    case SubOp => Sub(x, y)
    case MultOp => Mul(x, y)
  }

  function Constant(s: real, n: nat): (r: Slots)
    ensures |r| == n
  {
    seq(n, _ => s)
  }

  lemma ThreeSteps(x: Slots, s: real)
    ensures Apply(MultOp, Apply(AddOp, Apply(MultOp, x, Constant(-1.0, |x|)), Constant(s, |x|)), Constant(-1.0, |x|))
         == Sub(x, Constant(s, |x|))
  {}

  /** The device's number minus ciphertext agrees with the CPU's if and only if every slot holds that number. */
  lemma ScalarMinusAgreesIff(x: Slots, s: real)
    ensures Sub(x, Constant(s, |x|)) == Sub(Constant(s, |x|), x) <==> forall i :: 0 <= i < |x| ==> x[i] == s
  {
    var a, b := Sub(x, Constant(s, |x|)), Sub(Constant(s, |x|), x);
    forall i | 0 <= i < |x|
      ensures a[i] == b[i] <==> x[i] == s
    {}
  }

  /** With 1 in a slot, 0 minus the ciphertext comes out as 1 instead of -1. */
  lemma ScalarMinusGoesWrong()
    ensures Sub([1.0], Constant(0.0, 1)) == [1.0]
    ensures Sub(Constant(0.0, 1), [1.0]) == [-1.0]
  {}

  /** Commands over named ciphertexts. Binding a name again drops the ciphertext it named. */
  datatype Command =
    | Encrypt(x: nat, value: Slots)
    | Load(x: nat)
    | LoadPlaintext(value: Slots)
    | Clone(x: nat, a: nat)
    | Eval(x: nat, op: Op, a: nat, b: nat)
    | EvalInPlace(op: Op, a: nat, b: nat)
    | EvalScalar(x: nat, op: Op, a: nat, s: real)
    | EvalScalarInPlace(op: Op, a: nat, s: real)
    | Destroy(x: nat)

  type Store = map<nat, Slots>

  ghost predicate Sized(s: Store, n: nat) {
    forall x :: x in s ==> |s[x]| == n
  }

  /** The names a command reads are bound, and new vectors have n slots. */
  ghost predicate Defined(c: Command, names: set<nat>, n: nat) {
    match c
    case Encrypt(_, v) => |v| == n
    case Load(x) => x in names
    case LoadPlaintext(v) => |v| == n
    case Clone(_, a) => a in names
    case Eval(_, _, a, b) => a in names && b in names
    case EvalInPlace(_, a, b) => a in names && b in names
    case EvalScalar(_, _, a, _) => a in names
    case EvalScalarInPlace(_, a, _) => a in names
    case Destroy(x) => x in names
  }

  /** The meaning of a command on a store of values: only the name it assigns changes. */
  ghost function Step(c: Command, s: Store, n: nat): (t: Store)
    requires Sized(s, n) && Defined(c, s.Keys, n)
    ensures Sized(t, n)
  {
    match c
    case Encrypt(x, v) => s[x := v]
    case Load(_) => s
    case LoadPlaintext(_) => s
    case Clone(x, a) => s[x := s[a]]
    case Eval(x, op, a, b) => s[x := Apply(op, s[a], s[b])]
    case EvalInPlace(op, a, b) => s[a := Apply(op, s[a], s[b])]
    case EvalScalar(x, op, a, k) => s[x := Apply(op, s[a], Constant(k, n))]
    case EvalScalarInPlace(op, a, k) => s[a := Apply(op, s[a], Constant(k, n))]
    case Destroy(x) => s - {x}
  }

  // How many handles a program draws depends on which names are loaded.

  function Cost(loaded: bool): nat {
    if loaded then 0 else 1
  }

  /** Loading draws a handle, once; a copy of a loaded ciphertext draws one too. */
  function Draws(c: Command, loaded: set<nat>): nat {
    match c
    case Encrypt(_, _) => 0
    case Load(x) => Cost(x in loaded)
    case LoadPlaintext(_) => 1
    case Clone(_, a) => if a in loaded then 1 else 0
    case Eval(_, _, a, b) => Cost(a in loaded) + Cost(b in loaded || b == a) + 1
    case EvalInPlace(_, a, b) => Cost(a in loaded) + Cost(b in loaded || b == a)
    case EvalScalar(_, _, a, _) => Cost(a in loaded) + 1
    case EvalScalarInPlace(_, a, _) => Cost(a in loaded)
    case Destroy(_) => 0
  }

  /** The names that are loaded after a command. */
  function NextLoaded(c: Command, loaded: set<nat>): set<nat> {
    match c
    case Encrypt(x, _) => loaded - {x}
    case Load(x) => loaded + {x}
    case LoadPlaintext(_) => loaded
    case Clone(x, a) => if a in loaded then loaded + {x} else loaded - {x}
    case Eval(x, _, a, b) => loaded + {a, b} + {x}
    case EvalInPlace(_, a, b) => loaded + {a, b}
    case EvalScalar(x, _, a, _) => loaded + {a} + {x}
    case EvalScalarInPlace(_, a, _) => loaded + {a}
    case Destroy(x) => loaded - {x}
  }

  function TotalDraws(cs: seq<Command>, loaded: set<nat>): nat {
    if cs == [] then 0 else Draws(cs[0], loaded) + TotalDraws(cs[1..], NextLoaded(cs[0], loaded))
  }

  ghost predicate AllDefined(cs: seq<Command>, s: Store, n: nat)
    requires Sized(s, n)
  {
    cs == [] || (Defined(cs[0], s.Keys, n) && AllDefined(cs[1..], Step(cs[0], s, n), n))
  }

  ghost function Meaning(cs: seq<Command>, s: Store, n: nat): (t: Store)
    requires Sized(s, n) && AllDefined(cs, s, n)
    ensures Sized(t, n)
  {
    if cs == [] then s else Meaning(cs[1..], Step(cs[0], s, n), n)
  }

  /** A program is its first command and the others. */
  lemma FirstCommand(cs: seq<Command>, i: nat, s: Store, loaded: set<nat>, n: nat)
    requires i < |cs| && Sized(s, n) && AllDefined(cs[i..], s, n)
    ensures Defined(cs[i], s.Keys, n) && AllDefined(cs[i + 1..], Step(cs[i], s, n), n)
    ensures Meaning(cs[i..], s, n) == Meaning(cs[i + 1..], Step(cs[i], s, n), n)
    ensures TotalDraws(cs[i..], loaded)
         == Draws(cs[i], loaded) + TotalDraws(cs[i + 1..], NextLoaded(cs[i], loaded))
  {
    hide Step, Defined, Draws, NextLoaded;
    assert cs[i..][0] == cs[i] && cs[i..][1..] == cs[i + 1..];
  }

  lemma NoCommands(cs: seq<Command>, s: Store, loaded: set<nat>, n: nat)
    requires Sized(s, n)
    ensures cs[..0] == [] && cs[|cs|..] == [] && cs[0..] == cs
    ensures AllDefined([], s, n) && Meaning([], s, n) == s && TotalDraws([], loaded) == 0
  {}

  // ---------- Subtraction undoes addition ----------

  lemma AddBack(x: Slots, y: Slots)
    requires |x| == |y|
    ensures Apply(AddOp, Apply(SubOp, x, y), y) == x
    ensures Apply(SubOp, x, x) == Constant(0.0, |x|)
    ensures Apply(AddOp, Constant(0.0, |x|), Constant(0.0, |x|)) == Constant(0.0, |x|)
  {}

  lemma OneCommand(c: Command, s: Store, n: nat)
    requires Sized(s, n) && Defined(c, s.Keys, n)
    ensures AllDefined([c], s, n) && Meaning([c], s, n) == Step(c, s, n)
  {
    hide Step, Defined;
    assert [c][1..] == [];
    assert AllDefined([], Step(c, s, n), n) && Meaning([], Step(c, s, n), n) == Step(c, s, n);
  }

  lemma TwoCommands(c: Command, d: Command, s: Store, n: nat)
    requires Sized(s, n) && Defined(c, s.Keys, n) && Defined(d, Step(c, s, n).Keys, n)
    ensures AllDefined([c, d], s, n) && Meaning([c, d], s, n) == Step(d, Step(c, s, n), n)
  {
    hide Step, Defined;
    assert [c, d][1..] == [d];
    OneCommand(d, Step(c, s, n), n);
  }

  /** In place, adding what was subtracted restores the whole store, unless a name is subtracted from itself. */
  lemma SubThenAddInPlace(s: Store, a: nat, b: nat, n: nat)
    requires Sized(s, n) && a in s && b in s
    ensures var cs := [EvalInPlace(SubOp, a, b), EvalInPlace(AddOp, a, b)];
            AllDefined(cs, s, n) && Meaning(cs, s, n) == if a == b then s[a := Constant(0.0, n)] else s
  {
    hide Apply, Meaning, AllDefined;
    AddBack(s[a], s[b]);
    TwoCommands(EvalInPlace(SubOp, a, b), EvalInPlace(AddOp, a, b), s, n);
  }

  /** Into new names, the sum has the value that the difference was taken from. */
  lemma SubThenAdd(s: Store, x: nat, y: nat, a: nat, b: nat, n: nat)
    requires Sized(s, n) && a in s && b in s && x != b
    ensures var cs := [Eval(x, SubOp, a, b), Eval(y, AddOp, x, b)];
      AllDefined(cs, s, n) && Meaning(cs, s, n) == s[x := Apply(SubOp, s[a], s[b])][y := s[a]]
  {
    hide Apply, Meaning, AllDefined;
    AddBack(s[a], s[b]);
    TwoCommands(Eval(x, SubOp, a, b), Eval(y, AddOp, x, b), s, n);
  }

  /** The same with a number, in place and into new names. */
  lemma SubThenAddScalar(s: Store, x: nat, y: nat, a: nat, k: real, n: nat)
    requires Sized(s, n) && a in s
    ensures var cs := [EvalScalarInPlace(SubOp, a, k), EvalScalarInPlace(AddOp, a, k)];
      AllDefined(cs, s, n) && Meaning(cs, s, n) == s
    ensures var cs := [EvalScalar(x, SubOp, a, k), EvalScalar(y, AddOp, x, k)];
      AllDefined(cs, s, n) && Meaning(cs, s, n) == s[x := Apply(SubOp, s[a], Constant(k, n))][y := s[a]]
  {
    hide Apply, Meaning, AllDefined, Constant;
    AddBack(s[a], Constant(k, n));
    TwoCommands(EvalScalarInPlace(SubOp, a, k), EvalScalarInPlace(AddOp, a, k), s, n);
    TwoCommands(EvalScalar(x, SubOp, a, k), EvalScalar(y, AddOp, x, k), s, n);
  }

  // ---------- The registry ----------

  /** No two names of the same ciphertext. */
  ghost predicate Injective(env: map<nat, CiphertextImpl>) {
    forall x, y :: x in env && y in env && x != y ==> env[x] != env[y]
  }

  /** The values behind names. */
  ghost function Seen(env: map<nat, CiphertextImpl>, values: map<CiphertextImpl, Slots>): (s: Store)
    requires env.Values <= values.Keys
    ensures s.Keys == env.Keys
  {
    map x | x in env :: values[env[x]]
  }

  lemma SeenAt(env: map<nat, CiphertextImpl>, values: map<CiphertextImpl, Slots>, x: nat)
    requires env.Values <= values.Keys && x in env
    ensures Seen(env, values)[x] == values[env[x]]
  {}

  lemma SeenBind(env: map<nat, CiphertextImpl>, values: map<CiphertextImpl, Slots>, x: nat, c: CiphertextImpl, v: Slots)
    requires env.Values <= values.Keys && c !in env.Values && Injective(env)
    ensures Injective(env[x := c]) && Injective(env - {x})
    ensures Seen(env, values[c := v]) == Seen(env, values)
    ensures Seen(env[x := c], values[c := v]) == Seen(env, values)[x := v]
    ensures Seen(env - {x}, values) == Seen(env, values) - {x}
  {}

  /** Binding a live ciphertext and dropping what the name had. */
  lemma BoundStore(env: map<nat, CiphertextImpl>, values: map<CiphertextImpl, Slots>, x: nat, c: CiphertextImpl)
    requires env.Values <= values.Keys && c in values && c !in env.Values && Injective(env)
    ensures Injective(env[x := c]) && env[x := c].Values <= (values - Dropped(env, x)).Keys
    ensures Seen(env[x := c], values - Dropped(env, x)) == Seen(env, values)[x := values[c]]
  {
    ValuesBind(env, x, c);
  }

  /** The ciphertexts that a name loses. */
  function Dropped(env: map<nat, CiphertextImpl>, x: nat): set<CiphertextImpl> {
    if x in env then {env[x]} else {}
  }

  lemma ValuesBind(env: map<nat, CiphertextImpl>, x: nat, c: CiphertextImpl)
    requires Injective(env) && c !in env.Values
    ensures env[x := c].Values == env.Values - Dropped(env, x) + {c}
  {
    forall d | d in env.Values - Dropped(env, x)
      ensures d in env[x := c].Values
    {
      var y :| y in env && env[y] == d;
      assert env[x := c][y] == d;
    }
    assert env[x := c][x] == c;
  }

  /** Naming a new ciphertext leaves the unnamed ones as they were. */
  lemma UnnamedStay(live: set<CiphertextImpl>, env: map<nat, CiphertextImpl>, x: nat, c: CiphertextImpl)
    requires Injective(env) && env.Values <= live && c !in live
    ensures live + {c} - Dropped(env, x) - env[x := c].Values == live - env.Values
  {
    ValuesBind(env, x, c);
    assert Dropped(env, x) <= env.Values;
  }

  lemma ReleaseValues(env: map<nat, CiphertextImpl>, x: nat)
    requires Injective(env) && x in env
    ensures (env - {x}).Values == env.Values - {env[x]}
  {
    forall d | d in env.Values - {env[x]}
      ensures d in (env - {x}).Values
    {
      var y :| y in env && env[y] == d;
      assert (env - {x})[y] == d;
    }
  }

  /** The names of ciphertexts in a set. */
  ghost function NamesIn(env: map<nat, CiphertextImpl>, cs: set<CiphertextImpl>): set<nat> {
    set x | x in env && env[x] in cs
  }

  lemma NamesBind(env: map<nat, CiphertextImpl>, cs: set<CiphertextImpl>, x: nat, c: CiphertextImpl)
    requires Injective(env) && c !in env.Values
    ensures NamesIn(env[x := c], cs - Dropped(env, x)) == NamesIn(env, cs) - {x} + (if c in cs then {x} else {})
    ensures NamesIn(env, cs + {c}) == NamesIn(env, cs)
  {}

  lemma NamesAdd(env: map<nat, CiphertextImpl>, cs: set<CiphertextImpl>, x: nat)
    requires Injective(env) && x in env
    ensures NamesIn(env, cs + {env[x]}) == NamesIn(env, cs) + {x}
    ensures NamesIn(env - {x}, cs - {env[x]}) == NamesIn(env, cs) - {x}
  {}

  lemma SeenUpdate(env: map<nat, CiphertextImpl>, values: map<CiphertextImpl, Slots>, x: nat, v: Slots)
    requires env.Values <= values.Keys && x in env && Injective(env)
    ensures Seen(env, values[env[x] := v]) == Seen(env, values)[x := v]
  {}

  class CiphertextImpl {
    const cpu: Slots
    var gpu: nat
    var loaded: bool

    constructor (cpu: Slots)
      ensures this.cpu == cpu && gpu == 0 && !loaded
    {
      this.cpu, gpu, loaded := cpu, 0, false;
    }
  }

  /** A context with at least one device, loaded to it, for ciphertexts of the given number of slots. */
  class Context {
    const slots: nat
    var nextGpuHandle: nat
    var deviceCiphertexts: map<nat, Slots>
    var devicePlaintexts: map<nat, Slots>
    ghost var issued: nat
    ghost var live: set<CiphertextImpl>
    /** Which ciphertext a registered handle belongs to. */
    ghost var owner: map<nat, CiphertextImpl>

    /** Registered handles and loaded live ciphertexts correspond one to one. */
    ghost predicate Valid()
      reads this, live
    {
      && issued < HANDLES && nextGpuHandle == Handle(issued)
      && (forall c :: c in live ==> |c.cpu| == slots && (c.loaded ==> c.gpu in owner && owner[c.gpu] == c))
      && owner.Keys == deviceCiphertexts.Keys
      && (forall h :: h in owner ==> owner[h] in live && owner[h].loaded && owner[h].gpu == h)
      && (forall h :: h in deviceCiphertexts ==> 0 < h <= issued && |deviceCiphertexts[h]| == slots)
      && (forall h :: h in devicePlaintexts ==> 0 < h <= issued)
    }

    /** What a ciphertext encrypts: its entry in the registry, or the CPU ciphertext until it is loaded. */
    ghost function Value(c: CiphertextImpl): Slots
      reads this, c
    {
      if c.loaded && c.gpu in deviceCiphertexts then deviceCiphertexts[c.gpu] else c.cpu
    }

    ghost function Values(): (m: map<CiphertextImpl, Slots>)
      requires Valid()
      reads this, live
      ensures m.Keys == live && forall c :: c in m ==> |m[c]| == slots
    {
      map c | c in live :: Value(c)
    }

    ghost function Loaded(): (l: set<CiphertextImpl>)
      reads this, live
      ensures l <= live
    {
      set c | c in live && c.loaded
    }

    constructor (slots: nat)
      ensures Valid() && live == {} && this.slots == slots && issued == 0 && deviceCiphertexts == map[]
    {
      this.slots := slots;
      nextGpuHandle, deviceCiphertexts, devicePlaintexts := 1, map[], map[];
      issued, live, owner := 0, {}, map[];
    }

    /** Live loaded ciphertexts have distinct non-zero registered handles below the next one. */
    lemma DistinctHandles()
      requires Valid() && issued + 1 < HANDLES
      ensures forall c :: c in live && c.loaded ==> 0 < c.gpu < nextGpuHandle && c.gpu in deviceCiphertexts
      ensures forall c, d :: c in live && d in live && c != d && c.loaded && d.loaded ==> c.gpu != d.gpu
      ensures forall h :: h in deviceCiphertexts ==> exists c :: c in live && c.loaded && c.gpu == h
    {
      forall h | h in deviceCiphertexts
        ensures exists c :: c in live && c.loaded && c.gpu == h
      {
        assert owner[h] in live && owner[h].gpu == h;
      }
    }

    /** RegisterDeviceCiphertext: the new entry is stored if and only if its handle is free. */
    method RegisterDeviceCiphertext(v: Slots) returns (handle: nat)
      modifies `nextGpuHandle, `deviceCiphertexts, `issued
      ensures handle == old(nextGpuHandle) && nextGpuHandle == (handle + 1) % HANDLES
      ensures old(nextGpuHandle == Handle(issued)) ==> nextGpuHandle == Handle(issued)
      ensures deviceCiphertexts == Emplace(old(deviceCiphertexts), handle, v) && issued == old(issued) + 1
    {
      HandleStep(issued);
      handle := nextGpuHandle;
      nextGpuHandle := (nextGpuHandle + 1) % HANDLES;
      if handle !in deviceCiphertexts {
        deviceCiphertexts := deviceCiphertexts[handle := v];
      }
      issued := issued + 1;
    }

    /** RegisterDevicePlaintext draws from the same counter. */
    method RegisterDevicePlaintext(v: Slots) returns (handle: nat)
      requires Valid() && issued + 1 < HANDLES
      modifies `nextGpuHandle, `devicePlaintexts, `issued
      ensures Valid() && Values() == old(Values()) && Loaded() == old(Loaded()) && issued == old(issued) + 1
      ensures handle !in old(devicePlaintexts) && devicePlaintexts == old(devicePlaintexts)[handle := v]
    {
      hide Handle;
      HandleIs(issued);
      HandleStep(issued);
      handle := nextGpuHandle;
      nextGpuHandle := (nextGpuHandle + 1) % HANDLES;
      devicePlaintexts := devicePlaintexts[handle := v];
      issued := issued + 1;
    }

    /** A fresh ciphertext, not yet loaded. */
    method NewCiphertext(v: Slots) returns (c: CiphertextImpl)
      requires Valid() && |v| == slots
      modifies `live
      ensures Valid() && fresh(c) && !c.loaded && live == old(live) + {c}
      ensures Values() == old(Values())[c := v] && Loaded() == old(Loaded())
    {
      c := new CiphertextImpl(v);
      live := live + {c};
    }

    /** GetDeviceCiphertext: a loaded ciphertext is always registered. */
    method GetDeviceCiphertext(ct: CiphertextImpl) returns (v: Slots)
      requires Valid() && ct in live && ct.loaded
      ensures v == Values()[ct]
    {
      v := deviceCiphertexts[ct.gpu];
    }

    /** Registers a device copy and makes the ciphertext its owner. */
    method RegisterFor(ct: CiphertextImpl, v: Slots)
      requires Valid() && ct in live && !ct.loaded && issued + 1 < HANDLES && |v| == slots
      modifies this, ct
      ensures Valid() && live == old(live) && issued == old(issued) + 1
      ensures ct.loaded && ct.gpu !in old(deviceCiphertexts)
      ensures deviceCiphertexts == old(deviceCiphertexts)[ct.gpu := v]
    {
      hide Handle, Values, Value;
      HandleIs(issued);
      var handle := RegisterDeviceCiphertext(v);
      assert deviceCiphertexts == old(deviceCiphertexts)[handle := v];
      ct.gpu := handle;
      ct.loaded := true;
      owner := owner[handle := ct];
    }

    /** And only that ciphertext is loaded by it. */
    method RegisterOnly(ct: CiphertextImpl, v: Slots)
      requires Valid() && ct in live && !ct.loaded && issued + 1 < HANDLES && |v| == slots
      modifies this, ct
      ensures Valid() && live == old(live) && issued == old(issued) + 1 && Loaded() == old(Loaded()) + {ct}
      ensures ct.loaded && ct.gpu !in old(deviceCiphertexts)
      ensures deviceCiphertexts == old(deviceCiphertexts)[ct.gpu := v]
    {
      hide Valid;
      RegisterFor(ct, v);
    }

    /** So no other ciphertext changes its value. */
    method Attach(ct: CiphertextImpl, v: Slots)
      requires Valid() && ct in live && !ct.loaded && issued + 1 < HANDLES && |v| == slots
      modifies this, ct
      ensures Valid() && live == old(live) && issued == old(issued) + 1
      ensures ct.loaded && Values() == old(Values())[ct := v] && Loaded() == old(Loaded()) + {ct}
    {
      hide Handle, Emplace, Loaded;
      RegisterOnly(ct, v);
    }

    /** LoadCiphertext */
    method LoadCiphertext(ct: CiphertextImpl)
      requires Valid() && ct in live && issued + Cost(ct.loaded) < HANDLES
      modifies this, ct
      ensures Valid() && live == old(live) && issued == old(issued) + Cost(old(ct.loaded))
      ensures ct.loaded && Values() == old(Values()) && Loaded() == old(Loaded()) + {ct}
    {
      hide Valid;
      if !ct.loaded {
        CpuValue(ct);
        Attach(ct, ct.cpu);
      }
    }

    lemma CpuValue(ct: CiphertextImpl)
      requires Valid() && ct in live && !ct.loaded
      ensures |ct.cpu| == slots && Values()[ct] == ct.cpu
    {}

    /** The copy constructor and Clone. The copy of a loaded ciphertext gets its own entry. */
    method Clone(other: CiphertextImpl) returns (c: CiphertextImpl)
      requires Valid() && other in live && issued + Cost(!other.loaded) < HANDLES
      modifies this
      ensures Valid() && fresh(c) && live == old(live) + {c} && issued == old(issued) + Cost(!other.loaded)
      ensures c.loaded == other.loaded && Values() == old(Values())[c := old(Values())[other]]
      ensures Loaded() == old(Loaded()) + if other.loaded then {c} else {}
    {
      hide Valid, Values, Value, Loaded;
      CpuSize(other);
      c := NewCiphertext(other.cpu);
      if other.loaded {
        var v := GetDeviceCiphertext(other);
        assert old(Values())[c := other.cpu][c := v] == old(Values())[c := v];
        Attach(c, v);
      } else {
        CpuValue(other);
      }
    }

    lemma CpuSize(ct: CiphertextImpl)
      requires Valid() && ct in live
      ensures |ct.cpu| == slots
    {}

    /** Takes a ciphertext's entry out of the registry. */
    method Unregister(c: CiphertextImpl)
      requires Valid() && c in live
      modifies this, c
      ensures Valid() && live == old(live) - {c} && issued == old(issued) && Loaded() == old(Loaded()) - {c}
      ensures deviceCiphertexts == old(deviceCiphertexts) - if old(c.loaded) then {old(c.gpu)} else {}
    {
      hide Handle, Values, Value;
      if c.loaded && c.gpu != 0 {
        deviceCiphertexts := deviceCiphertexts - {c.gpu};
        owner := owner - {c.gpu};
        c.gpu := 0;
      }
      live := live - {c};
    }

    /** The destructor: a loaded ciphertext gives its entry back. */
    method Destroy(c: CiphertextImpl)
      requires Valid() && c in live
      modifies this, c
      ensures Valid() && live == old(live) - {c} && issued == old(issued)
      ensures Values() == old(Values()) - {c} && Loaded() == old(Loaded()) - {c}
    {
      hide Handle, Loaded;
      Unregister(c);
    }

    /** The device's in-place operation on a registered ciphertext. */
    method Mutate(op: Op, ct: CiphertextImpl, v: Slots)
      requires Valid() && ct in live && ct.loaded && |v| == slots
      modifies `deviceCiphertexts
      ensures Valid() && Values() == old(Values())[ct := Apply(op, old(Values())[ct], v)]
      ensures Loaded() == old(Loaded())
    {
      hide Apply, Handle;
      deviceCiphertexts := deviceCiphertexts[ct.gpu := Apply(op, deviceCiphertexts[ct.gpu], v)];
    }

    /** EvalAdd, EvalSub and EvalMult of two ciphertexts. */
    method EvalBinary(op: Op, ct1: CiphertextImpl, ct2: CiphertextImpl) returns (result: CiphertextImpl)
      requires Valid() && ct1 in live && ct2 in live
      requires issued + Cost(ct1.loaded) + Cost(ct2.loaded || ct2 == ct1) + 1 < HANDLES
      modifies this, ct1, ct2
      ensures Valid() && fresh(result) && live == old(live) + {result}
      ensures issued == old(issued + Cost(ct1.loaded) + Cost(ct2.loaded || ct2 == ct1) + 1)
      ensures Loaded() == old(Loaded()) + {ct1} + {ct2} + {result}
      ensures Values() == old(Values())[result := Apply(op, old(Values())[ct1], old(Values())[ct2])]
    {
      hide Valid, Values, Value, Apply;
      LoadCiphertext(ct1);
      LoadCiphertext(ct2);
      result := Clone(ct1);
      var v := GetDeviceCiphertext(ct2);
      Mutate(op, result, v);
    }

    /** EvalAddInPlace, EvalSubInPlace and EvalMultMutableInPlace, also on a ciphertext and itself. */
    method EvalBinaryInPlace(op: Op, ct1: CiphertextImpl, ct2: CiphertextImpl)
      requires Valid() && ct1 in live && ct2 in live
      requires issued + Cost(ct1.loaded) + Cost(ct2.loaded || ct2 == ct1) < HANDLES
      modifies this, ct1, ct2
      ensures Valid() && live == old(live)
      ensures issued == old(issued + Cost(ct1.loaded) + Cost(ct2.loaded || ct2 == ct1))
      ensures Loaded() == old(Loaded()) + {ct1} + {ct2}
      ensures Values() == old(Values())[ct1 := Apply(op, old(Values())[ct1], old(Values())[ct2])]
    {
      hide Valid, Values, Value, Apply;
      LoadCiphertext(ct1);
      LoadCiphertext(ct2);
      var v := GetDeviceCiphertext(ct2);
      Mutate(op, ct1, v);
    }

    /** The same operations with a number. */
    method EvalWithScalar(op: Op, ct: CiphertextImpl, s: real) returns (result: CiphertextImpl)
      requires Valid() && ct in live && issued + Cost(ct.loaded) + 1 < HANDLES
      modifies this, ct
      ensures Valid() && fresh(result) && live == old(live) + {result}
      ensures issued == old(issued + Cost(ct.loaded) + 1) && Loaded() == old(Loaded()) + {ct} + {result}
      ensures Values() == old(Values())[result := Apply(op, old(Values())[ct], Constant(s, slots))]
    {
      hide Valid, Values, Value, Apply;
      LoadCiphertext(ct);
      result := Clone(ct);
      Mutate(op, result, Constant(s, slots));
    }

    method EvalWithScalarInPlace(op: Op, ct: CiphertextImpl, s: real)
      requires Valid() && ct in live && issued + Cost(ct.loaded) < HANDLES
      modifies this, ct
      ensures Valid() && live == old(live)
      ensures issued == old(issued + Cost(ct.loaded)) && Loaded() == old(Loaded()) + {ct}
      ensures Values() == old(Values())[ct := Apply(op, old(Values())[ct], Constant(s, slots))]
    {
      hide Valid, Values, Value, Apply;
      LoadCiphertext(ct);
      Mutate(op, ct, Constant(s, slots));
    }

    /** EvalSub of a number and a ciphertext, in three device steps, gives the ciphertext minus the number. */
    method EvalSubFromScalar(s: real, ct: CiphertextImpl) returns (result: CiphertextImpl)
      requires Valid() && ct in live && issued + Cost(ct.loaded) + 1 < HANDLES
      modifies this, ct
      ensures Valid() && fresh(result) && live == old(live) + {result} && issued == old(issued + Cost(ct.loaded) + 1)
      ensures Values() == old(Values())[result := Sub(old(Values())[ct], Constant(s, slots))]
    {
      hide Valid, Values, Value, Apply;
      LoadCiphertext(ct);
      result := Clone(ct);
      Mutate(MultOp, result, Constant(-1.0, slots));
      Mutate(AddOp, result, Constant(s, slots));
      Mutate(MultOp, result, Constant(-1.0, slots));
      ThreeSteps(old(Values())[ct], s);
    }

    // ---------- Runs ----------

    /** Names of live ciphertexts, no two of the same one. */
    ghost predicate Names(env: map<nat, CiphertextImpl>)
      reads this
    {
      env.Values <= live && Injective(env)
    }

    /** The values behind the names. */
    ghost function Stored(env: map<nat, CiphertextImpl>): (s: Store)
      requires Valid() && Names(env)
      reads this, live
      ensures s.Keys == env.Keys
    {
      Seen(env, Values())
    }

    /** The names that are loaded. */
    ghost function LoadedNames(env: map<nat, CiphertextImpl>): set<nat>
      reads this, live
    {
      NamesIn(env, Loaded())
    }

    lemma IsLoaded(env: map<nat, CiphertextImpl>, a: nat, b: nat)
      requires Names(env) && a in env && b in env
      ensures a in LoadedNames(env) <==> env[a].loaded
      ensures env[a] == env[b] <==> a == b
    {}

    /** Drops a name and the ciphertext it has. */
    method Release(env0: map<nat, CiphertextImpl>, x: nat) returns (env: map<nat, CiphertextImpl>)
      requires Valid() && Names(env0) && x in env0
      modifies this, env0[x]
      ensures Valid() && Names(env) && live == old(live) - {env0[x]} && issued == old(issued)
      ensures env == env0 - {x}
      ensures Stored(env) == old(Stored(env0)) - {x} && LoadedNames(env) == old(LoadedNames(env0)) - {x}
    {
      hide Valid, Value, Loaded, NamesIn;
      NamesAdd(env0, Loaded(), x);
      Destroy(env0[x]);
      env := env0 - {x};
    }

    /**
     Names x with a ciphertext that was made after the others held the given values, dropping the one
     that x named before.
     */
    method Bind(env0: map<nat, CiphertextImpl>, x: nat, c: CiphertextImpl, ghost before: map<CiphertextImpl, Slots>)
      returns (env: map<nat, CiphertextImpl>)
      requires Valid() && env0.Values <= before.Keys && Injective(env0)
      requires c !in before && live == before.Keys + {c} && c in Values() && Values() == before[c := Values()[c]]
      modifies this, live
      ensures Valid() && Names(env) && live - env.Values == before.Keys - env0.Values && issued == old(issued)
      ensures live <= old(live) && env.Keys == env0.Keys + {x}
      ensures Stored(env) == Seen(env0, before)[x := old(Values())[c]]
      ensures LoadedNames(env) == NamesIn(env0, old(Loaded())) - {x} + if c in old(Loaded()) then {x} else {}
    {
      hide Valid, Values, Value, Loaded, NamesIn, Seen, Injective;
      ghost var l, v := Loaded(), Values();
      NamesBind(env0, l, x, c);
      SeenBind(env0, before, x, c, v[c]);
      BoundStore(env0, v, x, c);
      UnnamedStay(before.Keys, env0, x, c);
      if x in env0 {
        Destroy(env0[x]);
      }
      assert Loaded() == l - Dropped(env0, x) && Values() == v - Dropped(env0, x);
      env := env0[x := c];
    }

    /** A command that makes or copies a ciphertext. */
    method ExecuteNew(c: Command, env0: map<nat, CiphertextImpl>) returns (env: map<nat, CiphertextImpl>)
      requires c.Encrypt? || c.Clone?
      requires Valid() && Names(env0) && issued + Draws(c, LoadedNames(env0)) < HANDLES
      requires Sized(Stored(env0), slots) && Defined(c, env0.Keys, slots)
      modifies this, live
      ensures Valid() && Names(env) && fresh(live - old(live)) && live - env.Values == old(live) - env0.Values
      ensures Stored(env) == Step(c, old(Stored(env0)), slots)
      ensures issued == old(issued + Draws(c, LoadedNames(env0)))
      ensures LoadedNames(env) == NextLoaded(c, old(LoadedNames(env0)))
    {
      hide Valid, Values, Value, Apply, Seen, Injective, Dropped, Loaded, NamesIn;
      env := env0;
      ghost var l := Loaded();
      match c
      case Encrypt(x, v) =>
        var r := NewCiphertext(v);
        env := Bind(env, x, r, old(Values()));
      case Clone(x, a) =>
        SeenAt(env, Values(), a);
        IsLoaded(env, a, a);
        var r := Clone(env[a]);
        assert Loaded() == if r.loaded then l + {r} else l;
        NamesBind(env, l, x, r);
        env := Bind(env, x, r, old(Values()));
    }

    /** A command that computes a ciphertext from two. */
    method ExecuteEval(c: Command, env0: map<nat, CiphertextImpl>) returns (env: map<nat, CiphertextImpl>)
      requires c.Eval?
      requires Valid() && Names(env0) && issued + Draws(c, LoadedNames(env0)) < HANDLES
      requires Sized(Stored(env0), slots) && Defined(c, env0.Keys, slots)
      modifies this, live
      ensures Valid() && Names(env) && fresh(live - old(live)) && live - env.Values == old(live) - env0.Values
      ensures Stored(env) == Step(c, old(Stored(env0)), slots)
      ensures issued == old(issued + Draws(c, LoadedNames(env0)))
      ensures LoadedNames(env) == NextLoaded(c, old(LoadedNames(env0)))
    {
      hide Valid, Values, Value, Apply, Seen, Injective, Dropped, Loaded, NamesIn;
      env := env0;
      ghost var l := Loaded();
      SeenAt(env, Values(), c.a);
      SeenAt(env, Values(), c.b);
      NamesAddTwo(env, c.a, c.b);
      ghost var both := l + {env[c.a]} + {env[c.b]};
      var r := EvalBinary(c.op, env[c.a], env[c.b]);
      NamesBind(env, both, c.x, r);
      env := Bind(env, c.x, r, old(Values()));
    }

    /** A command that computes a ciphertext from one and a number. */
    method ExecuteEvalScalar(c: Command, env0: map<nat, CiphertextImpl>) returns (env: map<nat, CiphertextImpl>)
      requires c.EvalScalar?
      requires Valid() && Names(env0) && issued + Draws(c, LoadedNames(env0)) < HANDLES
      requires Sized(Stored(env0), slots) && Defined(c, env0.Keys, slots)
      modifies this, live
      ensures Valid() && Names(env) && fresh(live - old(live)) && live - env.Values == old(live) - env0.Values
      ensures Stored(env) == Step(c, old(Stored(env0)), slots)
      ensures issued == old(issued + Draws(c, LoadedNames(env0)))
      ensures LoadedNames(env) == NextLoaded(c, old(LoadedNames(env0)))
    {
      hide Valid, Values, Value, Apply, Seen, Injective, Dropped, Loaded, NamesIn;
      env := env0;
      ghost var l := Loaded();
      SeenAt(env, Values(), c.a);
      NamesAddTwo(env, c.a, c.a);
      ghost var more := l + {env[c.a]};
      var r := EvalWithScalar(c.op, env[c.a], c.s);
      NamesBind(env, more, c.x, r);
      env := Bind(env, c.x, r, old(Values()));
    }

    /** What loading one or two named ciphertexts does to the names. */
    lemma NamesAddTwo(env: map<nat, CiphertextImpl>, a: nat, b: nat)
      requires Names(env) && a in env && b in env
      ensures a in LoadedNames(env) <==> env[a].loaded
      ensures b in LoadedNames(env) <==> env[b].loaded
      ensures env[a] == env[b] <==> a == b
      ensures NamesIn(env, Loaded() + {env[a]}) == LoadedNames(env) + {a}
      ensures NamesIn(env, Loaded() + {env[a]} + {env[b]}) == LoadedNames(env) + {a, b}
    {
      hide Loaded, NamesIn;
      IsLoaded(env, a, b);
      IsLoaded(env, b, a);
      NamesAdd(env, Loaded(), a);
      NamesAdd(env, Loaded() + {env[a]}, b);
    }

    /** One command does to the values behind the names exactly what it means. */
    method Execute(c: Command, env0: map<nat, CiphertextImpl>) returns (env: map<nat, CiphertextImpl>)
      requires Valid() && Names(env0) && issued + Draws(c, LoadedNames(env0)) < HANDLES
      requires Sized(Stored(env0), slots) && Defined(c, env0.Keys, slots)
      modifies this, live
      ensures Valid() && Names(env) && fresh(live - old(live)) && live - env.Values == old(live) - env0.Values
      ensures Stored(env) == Step(c, old(Stored(env0)), slots)
      ensures issued == old(issued + Draws(c, LoadedNames(env0)))
      ensures LoadedNames(env) == NextLoaded(c, old(LoadedNames(env0)))
    {
      hide Valid, Values, Value, Apply, Seen, Injective, Dropped, Loaded, NamesIn;
      env := env0;
      match c
      case Load(x) =>
        NamesAddTwo(env, x, x);
        LoadCiphertext(env[x]);
      case LoadPlaintext(v) =>
        var h := RegisterDevicePlaintext(v);
      case EvalInPlace(op, a, b) =>
        SeenAt(env, Values(), a);
        SeenAt(env, Values(), b);
        NamesAddTwo(env, a, b);
        SeenUpdate(env, Values(), a, Apply(op, old(Stored(env0))[a], old(Stored(env0))[b]));
        EvalBinaryInPlace(op, env[a], env[b]);
      case EvalScalarInPlace(op, a, s) =>
        SeenAt(env, Values(), a);
        NamesAddTwo(env, a, a);
        SeenUpdate(env, Values(), a, Apply(op, old(Stored(env0))[a], Constant(s, slots)));
        EvalWithScalarInPlace(op, env[a], s);
      case Destroy(x) =>
        ReleaseValues(env, x);
        env := Release(env, x);
      case Encrypt(_, _) =>
        env := ExecuteNew(c, env);
      case Clone(_, _) =>
        env := ExecuteNew(c, env);
      case Eval(_, _, _, _) =>
        env := ExecuteEval(c, env);
      case EvalScalar(_, _, _, _) =>
        env := ExecuteEvalScalar(c, env);
    }

    /**
     Every run: as long as the handles that the program draws last, ciphertext objects that are loaded, cloned, updated
     in place and destroyed hold what the same program computes on values.
     */
    method Run(cs: seq<Command>, env0: map<nat, CiphertextImpl>) returns (env: map<nat, CiphertextImpl>)
      requires Valid() && Names(env0) && issued + TotalDraws(cs, LoadedNames(env0)) < HANDLES
      requires Sized(Stored(env0), slots) && AllDefined(cs, Stored(env0), slots)
      modifies this, live
      ensures Valid() && Names(env) && live - env.Values == old(live) - env0.Values
      ensures Stored(env) == Meaning(cs, old(Stored(env0)), slots)
      ensures issued == old(issued + TotalDraws(cs, LoadedNames(env0)))
    {
      hide Valid, Step, Draws, NextLoaded, LoadedNames, Stored, Defined, AllDefined, Meaning, TotalDraws, Sized;
      env := env0;
      NoCommands(cs, Stored(env), LoadedNames(env), slots);
      for i := 0 to |cs|
        invariant Valid() && Names(env) && fresh(live - old(live))
        invariant issued + TotalDraws(cs[i..], LoadedNames(env)) == old(issued + TotalDraws(cs, LoadedNames(env0)))
        invariant live - env.Values == old(live) - env0.Values
        invariant Sized(Stored(env), slots) && AllDefined(cs[i..], Stored(env), slots)
        invariant Meaning(cs[i..], Stored(env), slots) == Meaning(cs, old(Stored(env0)), slots)
      {
        FirstCommand(cs, i, Stored(env), LoadedNames(env), slots);
        env := Execute(cs[i], env);
      }
      NoCommands(cs, Stored(env), LoadedNames(env), slots);
    }
  }
}
