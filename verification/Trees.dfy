// The two transformations a JSON body goes through before it is compared: noise
// stripping and rule-driven array sorting.
module Trees {
  import opened Values
  import opened Glob
  import opened Optional

  // ----- addresses ----------------------------------------------------------------

  // One step into a value. Paths name an index by its decimal text.
  datatype Step = Key(key: string) | Index(index: nat)

  function Name(s: Step): string {
    match s case Key(k) => k case Index(i) => NatText(i)
  }

  function Names(addr: seq<Step>): seq<string> { seq(|addr|, i requires 0 <= i < |addr| => Name(addr[i])) }

  function Child(v: Value, s: Step): Option<Value> {
    match (v, s)
    case (Obj(fields), Key(k)) => if k in fields then Some(fields[k]) else None
    case (Arr(items), Index(i)) => if i < |items| then Some(items[i]) else None
    case _ => None
  }

  function Lookup(v: Value, addr: seq<Step>): Option<Value> {
    if addr == [] then Some(v)
    else match Child(v, addr[0]) case None => None case Some(c) => Lookup(c, addr[1..])
  }

  // ----- noise stripping ------------------------------------------------------------

  function StripNoise(v: Value, patterns: seq<string>, path: seq<string>): Value {
    match v
    case Obj(fields) =>
      Obj(map k | k in fields && !Noisy(patterns, path + [k]) :: StripNoise(fields[k], patterns, path + [k]))
    case Arr(items) =>
      Arr(seq(|items|, i requires 0 <= i < |items| => StripNoise(items[i], patterns, path + [NatText(i)])))
    case _ => v
  }

  // Some key on the way to addr is at a noise path.
  ghost predicate Hidden(patterns: seq<string>, path: seq<string>, addr: seq<Step>) {
    exists j :: 0 <= j < |addr| && addr[j].Key? && Noisy(patterns, path + Names(addr[..j + 1]))
  }

  lemma NamesCons(s: Step, addr: seq<Step>)
    ensures Names([s] + addr) == [Name(s)] + Names(addr)
  {
  }

  lemma HiddenStep(patterns: seq<string>, path: seq<string>, addr: seq<Step>)
    requires addr != []
    ensures Hidden(patterns, path, addr)
      <==> (addr[0].Key? && Noisy(patterns, path + [Name(addr[0])]))
           || Hidden(patterns, path + [Name(addr[0])], addr[1..])
  {
    var down := path + [Name(addr[0])];
    forall j | 0 <= j < |addr|
      ensures path + Names(addr[..j + 1]) == if j == 0 then down else down + Names(addr[1..][..j])
    {
      assert addr[..j + 1] == [addr[0]] + addr[1..][..j];
      NamesCons(addr[0], addr[1..][..j]);
    }
    if Hidden(patterns, path, addr) {
      var j :| 0 <= j < |addr| && addr[j].Key? && Noisy(patterns, path + Names(addr[..j + 1]));
      if j > 0 { assert addr[1..][j - 1].Key? && Noisy(patterns, down + Names(addr[1..][..j - 1 + 1])); }
    }
    if Hidden(patterns, down, addr[1..]) {
      var j :| 0 <= j < |addr[1..]| && addr[1..][j].Key? && Noisy(patterns, down + Names(addr[1..][..j + 1]));
      assert addr[j + 1].Key? && Noisy(patterns, path + Names(addr[..j + 1 + 1]));
    }
    if addr[0].Key? && Noisy(patterns, down) {
      assert path + Names(addr[..0 + 1]) == down;
    }
  }

  // A node survives exactly when no key prefix of its path is noise, and its subtree is
  // then stripped under its own path.
  lemma {:induction false} StripKeeps(v: Value, patterns: seq<string>, path: seq<string>, addr: seq<Step>)
    ensures Lookup(StripNoise(v, patterns, path), addr)
      == match Lookup(v, addr)
         case None => None
         case Some(w) =>
           if Hidden(patterns, path, addr) then None else Some(StripNoise(w, patterns, path + Names(addr)))
    decreases |addr|
  {
    if addr == [] {
      assert path + Names(addr) == path;
    } else {
      var down := path + [Name(addr[0])];
      HiddenStep(patterns, path, addr);
      match Child(v, addr[0]) {
        case None =>
        case Some(c) =>
          StripKeeps(c, patterns, down, addr[1..]);
          assert addr == [addr[0]] + addr[1..];
          NamesCons(addr[0], addr[1..]);
          assert down + Names(addr[1..]) == path + Names(addr);
      }
    }
  }

  // Stripping by P and then by Q is stripping by both; with P == Q, stripping is idempotent.
  lemma {:induction false} StripCompose(v: Value, p: seq<string>, q: seq<string>, path: seq<string>)
    ensures StripNoise(StripNoise(v, p, path), q, path) == StripNoise(v, p + q, path)
  {
    match v
    case Obj(fields) =>
      forall k | k in fields
        ensures Noisy(p + q, path + [k]) <==> Noisy(p, path + [k]) || Noisy(q, path + [k])
        ensures StripNoise(StripNoise(fields[k], p, path + [k]), q, path + [k])
          == StripNoise(fields[k], p + q, path + [k])
      {
        StripCompose(fields[k], p, q, path + [k]);
      }
      assert StripNoise(StripNoise(v, p, path), q, path).fields == StripNoise(v, p + q, path).fields;
    case Arr(items) =>
      forall i | 0 <= i < |items|
        ensures StripNoise(StripNoise(items[i], p, path + [NatText(i)]), q, path + [NatText(i)])
             == StripNoise(items[i], p + q, path + [NatText(i)])
      {
        StripCompose(items[i], p, q, path + [NatText(i)]);
      }
      assert StripNoise(StripNoise(v, p, path), q, path).items == StripNoise(v, p + q, path).items;
    case _ =>
  }

  lemma StripIdempotent(v: Value, patterns: seq<string>, path: seq<string>)
    ensures StripNoise(StripNoise(v, patterns, path), patterns, path) == StripNoise(v, patterns, path)
  {
    StripCompose(v, patterns, patterns, path);
    StripDuplicate(v, patterns, path);
  }

  lemma {:induction false} StripDuplicate(v: Value, p: seq<string>, path: seq<string>)
    ensures StripNoise(v, p + p, path) == StripNoise(v, p, path)
  {
    match v
    case Obj(fields) =>
      forall k | k in fields
        ensures Noisy(p + p, path + [k]) <==> Noisy(p, path + [k])
        ensures StripNoise(fields[k], p + p, path + [k]) == StripNoise(fields[k], p, path + [k])
      {
        StripDuplicate(fields[k], p, path + [k]);
      }
      assert StripNoise(v, p + p, path).fields == StripNoise(v, p, path).fields;
    case Arr(items) =>
      forall i | 0 <= i < |items|
        ensures StripNoise(items[i], p + p, path + [NatText(i)]) == StripNoise(items[i], p, path + [NatText(i)])
      {
        StripDuplicate(items[i], p, path + [NatText(i)]);
      }
      assert StripNoise(v, p + p, path).items == StripNoise(v, p, path).items;
    case _ =>
  }

  // The bodies differ at most at or under noise keys: there, members may be changed,
  // added or removed.
  ghost predicate AgreeOffNoise(a: Value, b: Value, patterns: seq<string>, path: seq<string>) {
    match (a, b)
    case (Obj(m), Obj(n)) =>
      forall k :: !Noisy(patterns, path + [k]) ==>
        (k in m <==> k in n) && (k in m && k in n ==> AgreeOffNoise(m[k], n[k], patterns, path + [k]))
    case (Arr(xs), Arr(ys)) =>
      |xs| == |ys| && forall i :: 0 <= i < |xs| ==> AgreeOffNoise(xs[i], ys[i], patterns, path + [NatText(i)])
    case _ => a == b
  }

  // Noise is invisible, and nothing else is.
  lemma {:induction false} NoiseExact(a: Value, b: Value, patterns: seq<string>, path: seq<string>)
    ensures StripNoise(a, patterns, path) == StripNoise(b, patterns, path) <==> AgreeOffNoise(a, b, patterns, path)
  {
    var sa, sb := StripNoise(a, patterns, path), StripNoise(b, patterns, path);
    match (a, b)
    case (Obj(m), Obj(n)) =>
      forall k | k in m && k in n && !Noisy(patterns, path + [k])
        ensures StripNoise(m[k], patterns, path + [k]) == StripNoise(n[k], patterns, path + [k])
           <==> AgreeOffNoise(m[k], n[k], patterns, path + [k])
      {
        NoiseExact(m[k], n[k], patterns, path + [k]);
      }
      if AgreeOffNoise(a, b, patterns, path) { assert sa.fields == sb.fields; }
      if sa == sb {
        forall k | !Noisy(patterns, path + [k]) ensures k in m <==> k in n {
          assert k in sa.fields <==> k in m;
          assert k in sb.fields <==> k in n;
        }
        forall k | !Noisy(patterns, path + [k]) && k in m && k in n
          ensures AgreeOffNoise(m[k], n[k], patterns, path + [k])
        {
          assert sa.fields[k] == sb.fields[k];
        }
      }
    case (Arr(xs), Arr(ys)) =>
      if |xs| == |ys| {
        forall i | 0 <= i < |xs|
          ensures StripNoise(xs[i], patterns, path + [NatText(i)]) == StripNoise(ys[i], patterns, path + [NatText(i)])
             <==> AgreeOffNoise(xs[i], ys[i], patterns, path + [NatText(i)])
        {
          NoiseExact(xs[i], ys[i], patterns, path + [NatText(i)]);
        }
        if AgreeOffNoise(a, b, patterns, path) { assert sa.items == sb.items; }
        if sa == sb {
          forall i | 0 <= i < |xs| ensures AgreeOffNoise(xs[i], ys[i], patterns, path + [NatText(i)]) {
            assert sa.items[i] == sb.items[i];
          }
        }
      } else {
        assert |sa.items| != |sb.items|;
      }
    case _ =>
  }
}
