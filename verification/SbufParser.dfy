// Model of inc/sbuf_parser.h: greedy recursive descent consumers. A consumer,
// a C function that takes the buffer, is a Grammar here; And and Or are the
// && and || such functions are composed with.
module SbufParsers {
  import opened Wrappers
  import opened Ints

  // The characters of a C string before its terminator.
  type CString = s: seq<byte> | forall i :: 0 <= i < |s| ==> s[i] != 0 witness []

  datatype Grammar =
    | Chars(chars: CString)
    | NotChars(chars: CString)
    | Range(chars: CString)
    | Str(str: CString)
    | Many(consume: Grammar)
    | Many1(consume: Grammar)
    | Until(consume: Grammar, stop: Grammar)
    | Try(parser: Grammar)
    | And(first: Grammar, second: Grammar)
    | Or(first: Grammar, second: Grammar)

  // What a consumer returns, and where it leaves the cursor.
  datatype Result = Result(ok: bool, pos: nat)

  // Success always moves the cursor.
  predicate Productive(g: Grammar) {
    match g
    case Chars(_) => true
    case NotChars(_) => true
    case Range(_) => true
    case Str(s) => s != []
    case Many(_) => false
    case Many1(c) => Productive(c)
    case Until(_, stop) => Productive(stop)
    case Try(p) => Productive(p)
    case And(a, b) => Productive(a) || Productive(b)
    case Or(a, b) => Productive(a) && Productive(b)
  }

  // Every repeated consumer is productive.
  predicate Repeatable(g: Grammar) {
    match g
    case Many(c) => Repeatable(c) && Productive(c)
    case Many1(c) => Repeatable(c) && Productive(c)
    case Until(c, stop) => Repeatable(c) && Productive(c) && Repeatable(stop)
    case Try(p) => Repeatable(p)
    case And(a, b) => Repeatable(a) && Repeatable(b)
    case Or(a, b) => Repeatable(a) && Repeatable(b)
    case _ => true
  }

  predicate InRange(c: byte, pairs: CString) {
    exists i :: 0 <= i < |pairs| && 2 * i + 1 < |pairs| && pairs[2 * i] <= c <= pairs[2 * i + 1]
  }

  // One character class, on the character under the cursor.
  predicate Accepts(g: Grammar, c: byte)
    requires g.Chars? || g.NotChars? || g.Range?
  {
    match g
    case Chars(s) => c in s
    case NotChars(s) => c !in s
    case Range(s) => InRange(c, s)
  }

  // How many characters of s match from p on.
  function Matched(s: seq<byte>, d: seq<byte>, p: nat): (n: nat)
    requires p <= |d|
    ensures n <= |s| && p + n <= |d|
  {
    if s == [] || p == |d| || d[p] != s[0] then 0 else 1 + Matched(s[1..], d, p + 1)
  }

  // What consumer g does on data d from position p.
  function Parse(g: Grammar, d: seq<byte>, p: nat): (r: Result)
    requires Repeatable(g) && p <= |d|
    ensures p <= r.pos <= |d|
    ensures r.ok && Productive(g) ==> p < r.pos
    decreases g, |d| - p, 1
  {
    match g
    case Str(s) => Result(Matched(s, d, p) == |s|, p + Matched(s, d, p))
    case Many(c) => if p == |d| then Result(false, p) else Result(true, Repeat(c, d, p))
    case Many1(c) =>
      var r := Parse(c, d, p);
      if !r.ok then r else Result(true, if r.pos == |d| then r.pos else Repeat(c, d, r.pos))
    case Until(c, stop) => Find(c, stop, d, p)
    case Try(h) =>
      var r := Parse(h, d, p);
      if r.ok then r else Result(false, p)
    case And(a, b) =>
      var r := Parse(a, d, p);
      if r.ok then Parse(b, d, r.pos) else r
    case Or(a, b) =>
      var r := Parse(a, d, p);
      if r.ok then r else Parse(b, d, r.pos)
    case _ => if p < |d| && Accepts(g, d[p]) then Result(true, p + 1) else Result(false, p)
  }

  // Where while(consume(buf)) {} leaves the cursor.
  function Repeat(c: Grammar, d: seq<byte>, p: nat): (q: nat)
    requires Repeatable(c) && Productive(c) && p <= |d|
    ensures p <= q <= |d|
    decreases c, |d| - p, 2
  {
    var r := Parse(c, d, p);
    if r.ok then Repeat(c, d, r.pos) else r.pos
  }

  // The loop of sbuf_until.
  function Find(c: Grammar, stop: Grammar, d: seq<byte>, p: nat): (r: Result)
    requires Repeatable(c) && Productive(c) && Repeatable(stop) && p <= |d|
    ensures p <= r.pos <= |d|
    ensures r.ok && Productive(stop) ==> p < r.pos
    decreases Until(c, stop), |d| - p, 0
  {
    var s := Parse(stop, d, p);
    if s.ok then s else
      var r := Parse(c, d, s.pos);
      if !r.ok then r else Find(c, stop, d, r.pos)
  }

  // ----- the consumers, on a buffer -----

  // struct sbuf as sbuf_parser_init leaves it: data at address buf.
  class ParseBuf {
    const data: seq<byte>
    const buf: nat
    const bufEnd: nat
    var bufCur: nat

    ghost predicate Valid()
      reads this
    {
      buf <= bufCur <= bufEnd == buf + |data|
    }

    // How far the cursor is into the data.
    ghost function Pos(): int
      reads this
    {
      bufCur - buf
    }

    // What consumer g did from position p on.
    ghost predicate Did(g: Grammar, p: int, ok: bool)
      requires Repeatable(g) && 0 <= p <= |data|
      reads this
    {
      Valid() && Result(ok, Pos()) == Parse(g, data, p)
    }

    // sbuf_parser_init
    constructor (data: seq<byte>, address: nat)
      ensures Valid() && this.data == data && buf == address && Pos() == 0
    {
      this.data, buf, bufEnd, bufCur := data, address, address + |data|, address;
    }

    // sbuf_peek
    method Peek() returns (ok: bool, c: byte)
      requires Valid()
      ensures ok <==> Pos() < |data|
      ensures ok ==> c == data[Pos()]
    {
      ok, c := buf <= bufCur < bufEnd, 0;
      if ok {
        c := data[bufCur - buf];
      }
    }

    // sbuf_chars
    method ConsumeChars(chars: CString) returns (ok: bool)
      requires Valid()
      modifies `bufCur
      ensures Did(Chars(chars), old(Pos()), ok)
      ensures ok <==> old(Pos()) < |data| && data[old(Pos())] in chars
      ensures Pos() == old(Pos()) + if ok then 1 else 0
    {
      var peeked, c := Peek();
      if !peeked {
        return false;
      }
      for i := 0 to |chars|
        invariant bufCur == old(bufCur) && c !in chars[..i]
      {
        if c == chars[i] {
          bufCur := bufCur + 1;
          return true;
        }
      }
      ok := false;
    }

    // sbuf_notchars
    method ConsumeNotChars(chars: CString) returns (ok: bool)
      requires Valid()
      modifies `bufCur
      ensures Did(NotChars(chars), old(Pos()), ok)
      ensures ok <==> old(Pos()) < |data| && data[old(Pos())] !in chars
      ensures Pos() == old(Pos()) + if ok then 1 else 0
    {
      var peeked, c := Peek();
      if !peeked {
        return false;
      }
      for i := 0 to |chars|
        invariant bufCur == old(bufCur) && c !in chars[..i]
      {
        if c == chars[i] {
          return false;
        }
      }
      bufCur := bufCur + 1;
      ok := true;
    }

    // sbuf_range
    method ConsumeRange(chars: CString) returns (ok: bool)
      requires Valid()
      modifies `bufCur
      ensures Did(Range(chars), old(Pos()), ok)
      ensures ok <==> old(Pos()) < |data| && InRange(data[old(Pos())], chars)
      ensures Pos() == old(Pos()) + if ok then 1 else 0
    {
      var peeked, c := Peek();
      if !peeked {
        return false;
      }
      var k := 0;
      while 2 * k + 1 < |chars|
        invariant bufCur == old(bufCur)
        invariant forall i :: 0 <= i < k && 2 * i + 1 < |chars| ==> !(chars[2 * i] <= c <= chars[2 * i + 1])
      {
        if chars[2 * k] <= c && c <= chars[2 * k + 1] {
          bufCur := bufCur + 1;
          return true;
        }
        k := k + 1;
      }
      ok := false;
    }

    // sbuf_string: character by character, keeping what matched.
    method ConsumeString(str: CString) returns (ok: bool)
      requires Valid()
      modifies `bufCur
      ensures Did(Str(str), old(Pos()), ok)
      ensures Reads(str, data, old(Pos()), Result(ok, Pos()))
    {
      hide Matched, Reads;
      StringMatches(str, data, Pos());
      for i := 0 to |str|
        invariant Valid() && bufCur == old(bufCur) + i
        invariant Matched(str, data, old(Pos())) == i + Matched(str[i..], data, Pos())
      {
        MatchedOne(str, data, i, Pos());
        var one := ConsumeChars([str[i]]);
        if !one {
          return false;
        }
      }
      ok := true;
    }

    // Any consumer whose repeated parts are productive. That this method is
    // accepted at all says that every such consumer terminates.
    method Consume(g: Grammar) returns (ok: bool)
      requires Valid() && Repeatable(g)
      modifies `bufCur
      ensures Did(g, old(Pos()), ok)
      decreases g, 0
    {
      match g
      case Chars(s) => ok := ConsumeChars(s);
      case NotChars(s) => ok := ConsumeNotChars(s);
      case Range(s) => ok := ConsumeRange(s);
      case Str(s) => ok := ConsumeString(s);
      case Many(c) => ok := ConsumeMany(c);
      case Many1(c) =>
        ok := Consume(c);
        if ok {
          var _ := ConsumeMany(c);
        }
      case Until(c, stop) =>
        ok := Consume(stop);
        while !ok
          invariant Valid()
          invariant Parse(g, data, old(Pos())) == if ok then Result(ok, Pos()) else AfterStop(c, stop, data, Pos())
          decreases bufEnd - bufCur, !ok
        {
          var consumed := Consume(c);
          if !consumed {
            return false;
          }
          ok := Consume(stop);
        }
      case Try(h) => ok := ConsumeTry(h);
      case And(a, b) =>
        ok := Consume(a);
        if ok {
          ok := Consume(b);
        }
      case Or(a, b) =>
        ok := Consume(a);
        if !ok {
          ok := Consume(b);
        }
    }

    // sbuf_many
    method ConsumeMany(c: Grammar) returns (ok: bool)
      requires Valid() && Repeatable(c) && Productive(c)
      modifies `bufCur
      ensures Did(Many(c), old(Pos()), ok)
      decreases c, 1
    {
      if !(buf <= bufCur < bufEnd) {
        return false;
      }
      var more := true;
      while more
        invariant Valid() && Repeat(c, data, old(Pos())) == if more then Repeat(c, data, Pos()) else Pos()
        decreases bufEnd - bufCur, more
      {
        more := Consume(c);
      }
      ok := true;
    }

    // sbuf_try: the parser runs on a buffer of its own that holds only the rest
    // of the data, and its cursor is taken over when it succeeds.
    method ConsumeTry(h: Grammar) returns (ok: bool)
      requires Valid() && Repeatable(h)
      modifies `bufCur
      ensures Valid() && ok == Parse(h, data, old(Pos())).ok
      ensures Pos() == if ok then Parse(h, data, old(Pos())).pos else old(Pos())
      decreases h, 1
    {
      ParseRest(h, data, Pos(), Pos());
      var tryp := new ParseBuf(data[bufCur - buf..], bufCur);
      ok := tryp.Consume(h);
      if ok {
        bufCur := bufCur + (tryp.bufCur - bufCur);
      }
    }
  }

  lemma MatchedOne(s: seq<byte>, d: seq<byte>, i: nat, p: nat)
    requires i < |s| && p <= |d|
    ensures Matched(s[i..], d, p) == if p < |d| && d[p] == s[i] then 1 + Matched(s[i + 1..], d, p + 1) else 0
  {
    assert s[i..][1..] == s[i + 1..];
  }

  // ----- no consumer looks behind the cursor -----

  // r, of a run on the data from position k on.
  function Shift(r: Result, k: nat): Result {
    Result(r.ok, k + r.pos)
  }

  lemma {:induction false} MatchedRest(s: seq<byte>, d: seq<byte>, k: nat, p: nat)
    requires k <= p <= |d|
    ensures Matched(s, d, p) == Matched(s, d[k..], p - k)
    decreases |s|
  {
    if s != [] && p < |d| {
      MatchedRest(s[1..], d, k, p + 1);
    }
  }

  lemma {:induction false} ParseRest(g: Grammar, d: seq<byte>, k: nat, p: nat)
    requires Repeatable(g) && k <= p <= |d|
    ensures Parse(g, d, p) == Shift(Parse(g, d[k..], p - k), k)
    decreases g, |d| - p, 1
  {
    hide Matched, Repeat, Find, Accepts;
    match g
    case Str(s) => MatchedRest(s, d, k, p);
    case Many(c) => RepeatRest(c, d, k, p);
    case Many1(c) =>
      ParseRest(c, d, k, p);
      RepeatRest(c, d, k, Parse(c, d, p).pos);
    case Until(c, stop) => FindRest(c, stop, d, k, p);
    case Try(h) => ParseRest(h, d, k, p);
    case And(a, b) =>
      ParseRest(a, d, k, p);
      ParseRest(b, d, k, Parse(a, d, p).pos);
    case Or(a, b) =>
      ParseRest(a, d, k, p);
      ParseRest(b, d, k, Parse(a, d, p).pos);
    case _ =>
  }

  lemma {:induction false} RepeatRest(c: Grammar, d: seq<byte>, k: nat, p: nat)
    requires Repeatable(c) && Productive(c) && k <= p <= |d|
    ensures Repeat(c, d, p) == k + Repeat(c, d[k..], p - k)
    decreases c, |d| - p, 2
  {
    ParseRest(c, d, k, p);
    if Parse(c, d, p).ok {
      RepeatRest(c, d, k, Parse(c, d, p).pos);
    }
  }

  lemma {:induction false} FindRest(c: Grammar, stop: Grammar, d: seq<byte>, k: nat, p: nat)
    requires Repeatable(c) && Productive(c) && Repeatable(stop) && k <= p <= |d|
    ensures Find(c, stop, d, p) == Shift(Find(c, stop, d[k..], p - k), k)
    decreases Until(c, stop), |d| - p, 0
  {
    hide Parse, Find, Repeatable, Productive;
    FindUnfold(c, stop, d, p);
    FindUnfold(c, stop, d[k..], p - k);
    ParseRest(stop, d, k, p);
    var s := Parse(stop, d, p);
    ParseRest(c, d, k, s.pos);
    var r := Parse(c, d, s.pos);
    if !s.ok && r.ok {
      FindRest(c, stop, d, k, r.pos);
    }
  }

  lemma FindUnfold(c: Grammar, stop: Grammar, d: seq<byte>, p: nat)
    requires Repeatable(c) && Productive(c) && Repeatable(stop) && p <= |d|
    ensures var s := Parse(stop, d, p);
            Find(c, stop, d, p) ==
              if s.ok then s else
                var r := Parse(c, d, s.pos);
                if r.ok then Find(c, stop, d, r.pos) else r
  {
    hide Parse, Repeatable, Productive;
  }

  // The rest of sbuf_until once stop has failed.
  function AfterStop(c: Grammar, stop: Grammar, d: seq<byte>, p: nat): Result
    requires Repeatable(c) && Productive(c) && Repeatable(stop) && p <= |d|
  {
    var r := Parse(c, d, p);
    if !r.ok then r else Find(c, stop, d, r.pos)
  }

  // ----- repetition, exactly -----

  // A loop whose body maps the cursor on, or ends the loop.
  type Step = nat -> Option<nat>

  // The cursor after n turns.
  ghost function Turns(step: Step, p: nat, n: nat): Option<nat>
    decreases n
  {
    if n == 0 then Some(p) else
    match step(p)
    case None => None
    case Some(q) => Turns(step, q, n - 1)
  }

  // Cursors only move forwards, up to the end of the data.
  ghost predicate Forwards(step: Step, end: nat) {
    forall p: nat, q: nat {:trigger step(p), Some(q)} :: p <= end && step(p) == Some(q) ==> p <= q <= end
  }

  // A turn that can be reached from p leaves the cursor where it was.
  ghost predicate Stalls(step: Step, p: nat) {
    exists n: nat, q: nat {:trigger Turns(step, p, n), step(q)} :: Turns(step, p, n) == Some(q) && step(q) == Some(q)
  }

  ghost predicate Halts(step: Step, p: nat) {
    exists n: nat :: Turns(step, p, n) == None
  }

  // A loop comes to its end exactly if no turn succeeds without consuming.
  lemma {:induction false} HaltsIff(step: Step, p: nat, end: nat)
    requires p <= end && Forwards(step, end)
    ensures Halts(step, p) <==> !Stalls(step, p)
  {
    if n: nat, q: nat :| Turns(step, p, n) == Some(q) && step(q) == Some(q) {
      forall m: nat ensures Turns(step, p, m) != None {
        StallForever(step, p, n, q, m);
      }
    } else {
      HaltsWithin(step, p, end);
    }
  }

  lemma {:induction false} StallForever(step: Step, p: nat, n: nat, q: nat, m: nat)
    requires Turns(step, p, n) == Some(q) && step(q) == Some(q)
    ensures Turns(step, p, m) != None
    decreases m
  {
    if m > 0 {
      StallForever(step, step(p).value, if n > 0 then n - 1 else 0, q, m - 1);
    }
  }

  lemma {:induction false} HaltsWithin(step: Step, p: nat, end: nat)
    requires p <= end && Forwards(step, end) && !Stalls(step, p)
    ensures Halts(step, p)
    decreases end - p
  {
    match step(p)
    case None => assert Turns(step, p, 1) == None;
    case Some(q) =>
      assert Turns(step, p, 0) == Some(p) && q != p;
      forall n: nat, r: nat | Turns(step, q, n) == Some(r) ensures step(r) != Some(r) {
        assert Turns(step, p, n + 1) == Some(r);
      }
      HaltsWithin(step, q, end);
      var n: nat :| Turns(step, q, n) == None;
      assert Turns(step, p, n + 1) == None;
  }

  // The body of sbuf_many.
  ghost function ManyStep(c: Grammar, d: seq<byte>): Step
    requires Repeatable(c)
  {
    (p: nat) => if p > |d| then None else
                var r := Parse(c, d, p);
                if r.ok then Some(r.pos) else None
  }

  // The body of sbuf_until.
  ghost function UntilStep(c: Grammar, stop: Grammar, d: seq<byte>): Step
    requires Repeatable(c) && Repeatable(stop)
  {
    (p: nat) => if p > |d| then None else
                var s := Parse(stop, d, p);
                if s.ok then None else
                var r := Parse(c, d, s.pos);
                if r.ok then Some(r.pos) else None
  }

  // sbuf_many and sbuf_until terminate on given data exactly if no reachable
  // turn succeeds in place; with a productive consumer none does.
  lemma LoopsTerminate(c: Grammar, stop: Grammar, d: seq<byte>, p: nat)
    requires Repeatable(c) && Repeatable(stop) && p <= |d|
    ensures Halts(ManyStep(c, d), p) <==> !Stalls(ManyStep(c, d), p)
    ensures Halts(UntilStep(c, stop, d), p) <==> !Stalls(UntilStep(c, stop, d), p)
    ensures Productive(c) ==> Halts(ManyStep(c, d), p) && Halts(UntilStep(c, stop, d), p)
  {
    hide ManyStep, UntilStep, Parse, Halts, Stalls, Forwards;
    ManyForwards(c, d);
    UntilForwards(c, stop, d);
    HaltsIff(ManyStep(c, d), p, |d|);
    HaltsIff(UntilStep(c, stop, d), p, |d|);
    if Productive(c) {
      NoStall(c, stop, d, p);
    }
  }

  lemma ManyForwards(c: Grammar, d: seq<byte>)
    requires Repeatable(c)
    ensures Forwards(ManyStep(c, d), |d|)
  {
    hide Parse;
  }

  lemma UntilForwards(c: Grammar, stop: Grammar, d: seq<byte>)
    requires Repeatable(c) && Repeatable(stop)
    ensures Forwards(UntilStep(c, stop, d), |d|)
  {
    hide Parse, Repeatable;
    forall p: nat, q: nat | p <= |d| && UntilStep(c, stop, d)(p) == Some(q)
      ensures p <= q <= |d|
    {
      var s := Parse(stop, d, p);
      assert q == Parse(c, d, s.pos).pos;
    }
  }

  lemma NoStall(c: Grammar, stop: Grammar, d: seq<byte>, p: nat)
    requires Repeatable(c) && Repeatable(stop) && Productive(c)
    ensures !Stalls(ManyStep(c, d), p) && !Stalls(UntilStep(c, stop, d), p)
  {
    hide Parse, Turns;
    forall q: nat ensures ManyStep(c, d)(q) != Some(q) && UntilStep(c, stop, d)(q) != Some(q) {
    }
  }

  // sbuf_many repeats the consumer as often as it succeeds: q is the end of the
  // longest prefix that repetitions make up. The cursor ends where the failing
  // attempt leaves it.
  lemma {:induction false} ManyLongest(c: Grammar, d: seq<byte>, p: nat) returns (n: nat, q: nat)
    requires Repeatable(c) && Productive(c) && p <= |d|
    ensures Turns(ManyStep(c, d), p, n) == Some(q) && p <= q <= |d| && !Parse(c, d, q).ok
    ensures forall m: nat :: Turns(ManyStep(c, d), p, m).Some? <==> m <= n
    ensures Repeat(c, d, p) == Parse(c, d, q).pos
    decreases |d| - p
  {
    var step, r := ManyStep(c, d), Parse(c, d, p);
    if r.ok {
      n, q := ManyLongest(c, d, r.pos);
      forall m: nat ensures Turns(step, p, m).Some? <==> m <= n + 1 {
        assert m > 0 ==> Turns(step, p, m) == Turns(step, r.pos, m - 1);
      }
      n := n + 1;
    } else {
      n, q := 0, p;
    }
  }

  // A consumer that never consumes when it fails.
  ghost predicate FailsInPlace(g: Grammar)
    requires Repeatable(g)
  {
    forall d: seq<byte>, p: nat {:trigger Parse(g, d, p)} ::
      p <= |d| && !Parse(g, d, p).ok ==> Parse(g, d, p).pos == p
  }

  // sbuf_many leaves the cursor after n turns, and there is no further turn.
  ghost predicate EndsAfter(c: Grammar, d: seq<byte>, p: nat, n: nat)
    requires Repeatable(c) && Productive(c) && p < |d|
  {
    && Turns(ManyStep(c, d), p, n) == Some(Parse(Many(c), d, p).pos)
    && forall m: nat :: Turns(ManyStep(c, d), p, m).Some? ==> m <= n
  }

  ghost predicate LongestAt(c: Grammar, d: seq<byte>, p: nat)
    requires Repeatable(c) && Productive(c) && p < |d|
  {
    exists n: nat :: EndsAfter(c, d, p, n)
  }

  // On all data, from every position.
  ghost predicate EndsAtLongest(c: Grammar)
    requires Repeatable(c) && Productive(c)
  {
    forall d: seq<byte>, p: nat {:trigger LongestAt(c, d, p)} :: p < |d| ==> LongestAt(c, d, p)
  }

  // sbuf_many stops at the longest repeatable prefix exactly for the consumers
  // that fail without consuming.
  lemma ManyLongestIff(c: Grammar)
    requires Repeatable(c) && Productive(c)
    ensures EndsAtLongest(c) <==> FailsInPlace(c)
  {
    hide Parse, Repeatable, Productive, LongestAt;
    if FailsInPlace(c) {
      forall d: seq<byte>, p: nat | p < |d|
        ensures LongestAt(c, d, p)
      {
        ManyInPlace(c, d, p);
      }
    } else {
      var d: seq<byte>, p: nat :| p <= |d| && !Parse(c, d, p).ok && Parse(c, d, p).pos != p;
      Overshoots(c, d, p);
    }
  }

  lemma ManyInPlace(c: Grammar, d: seq<byte>, p: nat)
    requires Repeatable(c) && Productive(c) && FailsInPlace(c) && p < |d|
    ensures LongestAt(c, d, p)
  {
    var n, q := ManyLongest(c, d, p);
    assert EndsAfter(c, d, p, n);
  }

  lemma Overshoots(c: Grammar, d: seq<byte>, p: nat)
    requires Repeatable(c) && Productive(c) && p <= |d| && !Parse(c, d, p).ok && Parse(c, d, p).pos != p
    ensures p < |d| && !LongestAt(c, d, p)
  {
    assert Repeat(c, d, p) == Parse(c, d, p).pos;
    assert Parse(Many(c), d, p).pos != p;
    hide Parse, Repeat;
    forall n: nat ensures !EndsAfter(c, d, p, n) {
      if n == 0 {
        assert Turns(ManyStep(c, d), p, 0) == Some(p);
      } else {
        assert ManyStep(c, d)(p) == None;
        assert Turns(ManyStep(c, d), p, n) == None;
      }
    }
  }

  // Enough for that, and read off the consumer.
  predicate Clean(g: Grammar) {
    match g
    case Str(s) => |s| <= 1
    case Many(_) => true
    case Many1(c) => Clean(c)
    case Until(_, _) => false
    case Try(_) => true
    case And(_, _) => false
    case Or(a, b) => Clean(a) && Clean(b)
    case _ => true
  }

  lemma CleanFailsInPlace(g: Grammar)
    requires Repeatable(g) && Clean(g)
    ensures FailsInPlace(g)
  {
    hide Parse;
    forall d: seq<byte>, p: nat {:trigger Parse(g, d, p)} | p <= |d| && !Parse(g, d, p).ok
      ensures Parse(g, d, p).pos == p
    {
      CleanFails(g, d, p);
    }
  }

  lemma {:induction false} CleanFails(g: Grammar, d: seq<byte>, p: nat)
    requires Repeatable(g) && Clean(g) && p <= |d| && !Parse(g, d, p).ok
    ensures Parse(g, d, p).pos == p
  {
    match g
    case Many1(c) => CleanFails(c, d, p);
    case Or(a, b) =>
      CleanFails(a, d, p);
      CleanFails(b, d, p);
    case _ =>
  }

  lemma ManyOfClean(c: Grammar)
    requires Repeatable(c) && Productive(c) && Clean(c)
    ensures EndsAtLongest(c)
  {
    CleanFailsInPlace(c);
    ManyLongestIff(c);
  }

  // Other consumers can end inside a repetition that failed: "ab" many times on "aba" ends after the last a.
  lemma ManyOfStringOvershoots()
    ensures var ab: CString := [97, 98];
            Parse(Many(Str(ab)), [97, 98, 97], 0) == Result(true, 3)
            && Turns(ManyStep(Str(ab), [97, 98, 97]), 0, 1) == Some(2)
            && Turns(ManyStep(Str(ab), [97, 98, 97]), 0, 2) == None
  {
    var ab: CString, d: seq<byte> := [97, 98], [97, 98, 97];
    assert ab[1..] == [98] && ab[1..][1..] == [];
    assert Parse(Str(ab), d, 0) == Result(true, 2);
    assert Parse(Str(ab), d, 2) == Result(false, 3);
    assert Turns(ManyStep(Str(ab), d), 2, 1) == None;
    assert Turns(ManyStep(Str(ab), d), 2, 0) == Some(2);
  }

  // sbuf_until, with a stop that fails without consuming, as it must: q is the
  // first position, counting in repetitions of the consumer, at which stop
  // matches, or else the position at which the consumer gives up.
  lemma {:induction false} UntilFirst(c: Grammar, stop: Grammar, d: seq<byte>, p: nat) returns (n: nat, q: nat)
    requires Repeatable(c) && Productive(c) && Repeatable(stop) && FailsInPlace(stop) && p <= |d|
    ensures Turns(ManyStep(c, d), p, n) == Some(q) && p <= q <= |d|
    ensures Unmatched(c, stop, d, p, n)
    ensures var u, s, r := Parse(Until(c, stop), d, p), Parse(stop, d, q), Parse(c, d, q);
            && (u.ok <==> s.ok)
            && if s.ok then u.pos == s.pos else !r.ok && u.pos == r.pos
    decreases |d| - p
  {
    hide Parse, Productive, Repeatable, FailsInPlace, Unmatched, Turns, ManyStep, Find, Repeat;
    n, q := 0, p;
    UntilIsFind(c, stop, d, p);
    UnmatchedNone(c, stop, d, p);
    FindTurn(c, stop, d, p);
    if !Parse(stop, d, p).ok && Parse(c, d, p).ok {
      var r := Parse(c, d, p);
      UntilIsFind(c, stop, d, r.pos);
      n, q := UntilFirst(c, stop, d, r.pos);
      NoMatchBefore(c, stop, d, p, n);
      n := n + 1;
    }
  }

  lemma UntilIsFind(c: Grammar, stop: Grammar, d: seq<byte>, p: nat)
    requires Repeatable(c) && Productive(c) && Repeatable(stop) && p <= |d|
    ensures Parse(Until(c, stop), d, p) == Find(c, stop, d, p)
  {
  }

  // One turn of sbuf_until.
  lemma FindTurn(c: Grammar, stop: Grammar, d: seq<byte>, p: nat)
    requires Repeatable(c) && Productive(c) && Repeatable(stop) && FailsInPlace(stop) && p <= |d|
    ensures Turns(ManyStep(c, d), p, 0) == Some(p)
    ensures var s, r := Parse(stop, d, p), Parse(c, d, p);
            && (r.ok ==> p < r.pos)
            && (r.ok ==> forall n: nat :: Turns(ManyStep(c, d), p, n + 1) == Turns(ManyStep(c, d), r.pos, n))
            && Find(c, stop, d, p) == if s.ok then s else if r.ok then Find(c, stop, d, r.pos) else r
  {
    hide Repeat, Repeatable, Productive, Parse;
    if Parse(c, d, p).ok {
      assert ManyStep(c, d)(p) == Some(Parse(c, d, p).pos);
    }
  }

  // Stop matches nowhere in the first n turns from p.
  ghost predicate Unmatched(c: Grammar, stop: Grammar, d: seq<byte>, p: nat, n: nat)
    requires Repeatable(c) && Repeatable(stop)
  {
    forall m: nat {:trigger Turns(ManyStep(c, d), p, m)} :: m < n ==>
      var t := Turns(ManyStep(c, d), p, m); t.Some? && t.value <= |d| && !Parse(stop, d, t.value).ok
  }

  lemma UnmatchedNone(c: Grammar, stop: Grammar, d: seq<byte>, p: nat)
    requires Repeatable(c) && Repeatable(stop)
    ensures Unmatched(c, stop, d, p, 0)
  {
  }

  lemma NoMatchBefore(c: Grammar, stop: Grammar, d: seq<byte>, p: nat, n: nat)
    requires Repeatable(c) && Repeatable(stop) && p <= |d| && !Parse(stop, d, p).ok && Parse(c, d, p).ok
    requires Unmatched(c, stop, d, Parse(c, d, p).pos, n)
    ensures Unmatched(c, stop, d, p, n + 1)
  {
    hide Parse;
    var step, r := ManyStep(c, d), Parse(c, d, p);
    assert step(p) == Some(r.pos);
    forall m: nat {:trigger Turns(ManyStep(c, d), p, m)} | m < n + 1
      ensures var t := Turns(step, p, m); t.Some? && t.value <= |d| && !Parse(stop, d, t.value).ok
    {
      if m > 0 {
        assert Turns(step, p, m) == Turns(step, r.pos, m - 1);
      }
    }
  }

  // r is the end of the longest common prefix of s and the data from p on.
  ghost predicate Reads(s: seq<byte>, d: seq<byte>, p: nat, r: Result) {
    && p <= r.pos <= |d| && r.pos - p <= |s|
    && s[..r.pos - p] == d[p..r.pos]
    && (r.ok <==> r.pos - p == |s|)
    && (!r.ok ==> r.pos == |d| || d[r.pos] != s[r.pos - p])
  }

  // sbuf_string succeeds exactly on data that continues with the string, and
  // otherwise has consumed their longest common prefix.
  lemma {:induction false} StringMatches(s: CString, d: seq<byte>, p: nat)
    requires p <= |d|
    ensures var r := Parse(Str(s), d, p); (r.ok <==> s <= d[p..]) && Reads(s, d, p, r)
  {
    MatchedPrefix(s, d, p);
  }

  lemma {:induction false} MatchedPrefix(s: seq<byte>, d: seq<byte>, p: nat)
    requires p <= |d|
    ensures var n := Matched(s, d, p);
            && (n == |s| <==> s <= d[p..])
            && s[..n] == d[p..p + n]
            && (n < |s| ==> p + n == |d| || d[p + n] != s[n])
    decreases |s|
  {
    if s != [] && p < |d| && d[p] == s[0] {
      MatchedPrefix(s[1..], d, p + 1);
      assert s == [s[0]] + s[1..] && d[p..] == [d[p]] + d[p + 1..];
      var n := Matched(s[1..], d, p + 1);
      assert s[..n + 1] == [s[0]] + s[1..][..n];
      assert d[p..p + n + 1] == [d[p]] + d[p + 1..p + 1 + n];
    }
  }

  // ----- what consumers mean, without running them -----

  // A range is read as pairs, and a character that is left over is ignored.
  function Flat(pairs: seq<(byte, byte)>): seq<byte> {
    if pairs == [] then [] else [pairs[0].0, pairs[0].1] + Flat(pairs[1..])
  }

  lemma {:induction false} FlatAt(pairs: seq<(byte, byte)>, i: nat)
    requires i < |pairs|
    ensures |Flat(pairs)| == 2 * |pairs| && Flat(pairs)[2 * i] == pairs[i].0 && Flat(pairs)[2 * i + 1] == pairs[i].1
  {
    if |pairs| > 1 {
      FlatAt(pairs[1..], if i > 0 then i - 1 else 0);
    }
  }

  lemma RangeOfPairs(c: byte, pairs: seq<(byte, byte)>, rest: seq<byte>, chars: CString)
    requires chars == Flat(pairs) + rest && |rest| <= 1
    ensures InRange(c, chars) <==> exists pair :: pair in pairs && pair.0 <= c <= pair.1
  {
    if pairs != [] {
      FlatAt(pairs, 0);
    }
    forall i | 0 <= i < |pairs| ensures chars[2 * i] == pairs[i].0 && chars[2 * i + 1] == pairs[i].1 {
      FlatAt(pairs, i);
    }
    if pair :| pair in pairs && pair.0 <= c <= pair.1 {
      var i :| 0 <= i < |pairs| && pairs[i] == pair;
      assert chars[2 * i] <= c <= chars[2 * i + 1];
    }
  }

  // Consumer g, from p on, comes to r. A repetition is a sequence of cursors
  // qs, one per turn.
  ghost predicate Comes(g: Grammar, d: seq<byte>, p: nat, r: Result)
    decreases g, 3
  {
    match g
    case Chars(s) => r == if p < |d| && d[p] in s then Result(true, p + 1) else Result(false, p)
    case NotChars(s) => r == if p < |d| && d[p] !in s then Result(true, p + 1) else Result(false, p)
    case Range(s) => r == if p < |d| && InRange(d[p], s) then Result(true, p + 1) else Result(false, p)
    case Str(s) => Reads(s, d, p, r)
    case Many(c) => if p >= |d| then r == Result(false, p) else r.ok && exists qs :: Repeats(c, d, p, qs, r.pos)
    case Many1(c) =>
      if r.ok then exists first, qs :: Comes(c, d, p, Result(true, first)) && Repeats(c, d, first, qs, r.pos)
      else Comes(c, d, p, r)
    case Until(c, stop) => exists qs :: Seeks(c, stop, d, p, qs, r)
    case Try(h) => if r.ok then Comes(h, d, p, r) else r.pos == p && exists q :: Comes(h, d, p, Result(false, q))
    case And(a, b) =>
      (!r.ok && Comes(a, d, p, r)) || exists q :: Comes(a, d, p, Result(true, q)) && Comes(b, d, q, r)
    case Or(a, b) =>
      (r.ok && Comes(a, d, p, r)) || exists q :: Comes(a, d, p, Result(false, q)) && Comes(b, d, q, r)
  }

  // From p on, c succeeds from each cursor to the next, and fails from the last.
  ghost predicate Repeats(c: Grammar, d: seq<byte>, p: nat, qs: seq<nat>, end: nat)
    decreases c, 4
  {
    && qs != [] && qs[0] == p
    && (forall i {:trigger qs[i]} :: 0 < i < |qs| ==> Comes(c, d, qs[i - 1], Result(true, qs[i])))
    && Comes(c, d, qs[|qs| - 1], Result(false, end))
  }

  // One turn of sbuf_until: stop fails, and c goes on from where it left off.
  ghost predicate Turn(c: Grammar, stop: Grammar, d: seq<byte>, p: nat, r: Result)
    decreases Until(c, stop), 1
  {
    exists s :: Comes(stop, d, p, Result(false, s)) && Comes(c, d, s, r)
  }

  // The turns before the last one succeed; the last one ends with stop or,
  // failing that, with c.
  ghost predicate Seeks(c: Grammar, stop: Grammar, d: seq<byte>, p: nat, qs: seq<nat>, r: Result)
    decreases Until(c, stop), 2
  {
    && qs != [] && qs[0] == p
    && (forall i {:trigger qs[i]} :: 0 < i < |qs| ==> Turn(c, stop, d, qs[i - 1], Result(true, qs[i])))
    && if r.ok then Comes(stop, d, qs[|qs| - 1], r) else Turn(c, stop, d, qs[|qs| - 1], r)
  }

  ghost predicate Agrees(g: Grammar, d: seq<byte>)
    requires Repeatable(g)
  {
    forall p: nat, r {:trigger Comes(g, d, p, r)} :: p <= |d| ==> (Comes(g, d, p, r) <==> r == Parse(g, d, p))
  }

  lemma Agree(g: Grammar, d: seq<byte>, p: nat, r: Result)
    requires Repeatable(g) && Agrees(g, d) && p <= |d|
    ensures Comes(g, d, p, r) <==> r == Parse(g, d, p)
  {
  }

  // Every consumer comes to exactly one result: the one it computes.
  lemma {:induction false} ComesIff(g: Grammar, d: seq<byte>, p: nat, r: Result)
    requires Repeatable(g) && p <= |d|
    ensures Comes(g, d, p, r) <==> r == Parse(g, d, p)
  {
    hide Comes, Parse;
    AllAgree(g, d);
  }

  lemma {:induction false} AllAgree(g: Grammar, d: seq<byte>)
    requires Repeatable(g)
    ensures Agrees(g, d)
  {
    hide Agrees;
    match g
    case Str(s) => StrAgrees(s, d);
    case Many(c) =>
      AllAgree(c, d);
      ManyAgrees(c, d);
    case Many1(c) =>
      AllAgree(c, d);
      Many1Agrees(c, d);
    case Until(c, stop) =>
      AllAgree(c, d);
      AllAgree(stop, d);
      UntilAgrees(c, stop, d);
    case Try(h) =>
      AllAgree(h, d);
      TryAgrees(h, d);
    case And(a, b) =>
      AllAgree(a, d);
      AllAgree(b, d);
      AndAgrees(a, b, d);
    case Or(a, b) =>
      AllAgree(a, d);
      AllAgree(b, d);
      OrAgrees(a, b, d);
    case _ => OneAgrees(g, d);
  }

  lemma OneAgrees(g: Grammar, d: seq<byte>)
    requires g.Chars? || g.NotChars? || g.Range?
    ensures Agrees(g, d)
  {
  }

  lemma StrAgrees(s: CString, d: seq<byte>)
    ensures Agrees(Str(s), d)
  {
    forall p: nat, r {:trigger Comes(Str(s), d, p, r)} | p <= |d|
      ensures Comes(Str(s), d, p, r) <==> r == Parse(Str(s), d, p)
    {
      StringMatches(s, d, p);
      if Reads(s, d, p, r) {
        ReadsOnce(s, d, p, r, Parse(Str(s), d, p));
      }
    }
  }

  lemma ReadsOnce(s: seq<byte>, d: seq<byte>, p: nat, r: Result, r': Result)
    requires Reads(s, d, p, r) && Reads(s, d, p, r')
    ensures r == r'
  {
    ReadsSame(s, d, p, r);
    ReadsSame(s, d, p, r');
  }

  lemma ReadsSame(s: seq<byte>, d: seq<byte>, p: nat, r: Result)
    requires Reads(s, d, p, r)
    ensures forall k :: p <= k < r.pos ==> d[k] == s[k - p]
  {
    forall k | p <= k < r.pos ensures d[k] == s[k - p] {
      assert s[..r.pos - p][k - p] == d[p..r.pos][k - p];
    }
  }

  lemma ManyAgrees(c: Grammar, d: seq<byte>)
    requires Repeatable(Many(c)) && Agrees(c, d)
    ensures Agrees(Many(c), d)
  {
    forall p: nat, r {:trigger Comes(Many(c), d, p, r)} | p <= |d|
      ensures Comes(Many(c), d, p, r) <==> r == Parse(Many(c), d, p)
    {
      hide Agrees, Repeats;
      if p < |d| {
        var qs := RepeatsTo(c, d, p);
        if r.ok && exists qs :: Repeats(c, d, p, qs, r.pos) {
          var qs :| Repeats(c, d, p, qs, r.pos);
          RepeatsOnly(c, d, p, qs, r.pos);
        }
      }
    }
  }

  lemma {:induction false} RepeatsTo(c: Grammar, d: seq<byte>, p: nat) returns (qs: seq<nat>)
    requires Repeatable(c) && Productive(c) && Agrees(c, d) && p <= |d|
    ensures Repeats(c, d, p, qs, Repeat(c, d, p))
    decreases |d| - p
  {
    hide Comes, Parse, Agrees;
    var r := Parse(c, d, p);
    Agree(c, d, p, r);
    if r.ok {
      var rest := RepeatsTo(c, d, r.pos);
      qs := [p] + rest;
      forall i {:trigger qs[i]} | 0 < i < |qs| ensures Comes(c, d, qs[i - 1], Result(true, qs[i])) {
        if i > 1 {
          assert qs[i] == rest[i - 1];
        }
      }
    } else {
      qs := [p];
    }
  }

  lemma {:induction false} RepeatsOnly(c: Grammar, d: seq<byte>, p: nat, qs: seq<nat>, end: nat)
    requires Repeatable(c) && Productive(c) && Agrees(c, d) && p <= |d| && Repeats(c, d, p, qs, end)
    ensures end == Repeat(c, d, p)
    decreases |qs|
  {
    hide Comes, Parse, Agrees;
    if |qs| == 1 {
      Agree(c, d, p, Result(false, end));
    } else {
      assert Comes(c, d, qs[0], Result(true, qs[1]));
      Agree(c, d, p, Result(true, qs[1]));
      RepeatsOnly(c, d, qs[1], qs[1..], end);
    }
  }

  lemma Many1Agrees(c: Grammar, d: seq<byte>)
    requires Repeatable(Many1(c)) && Agrees(c, d)
    ensures Agrees(Many1(c), d)
  {
    forall p: nat, r {:trigger Comes(Many1(c), d, p, r)} | p <= |d|
      ensures Comes(Many1(c), d, p, r) <==> r == Parse(Many1(c), d, p)
    {
      hide Agrees, Repeats;
      var first := Parse(c, d, p);
      Agree(c, d, p, first);
      Agree(c, d, p, r);
      if first.ok {
        var qs := RepeatsTo(c, d, first.pos);
      }
      if r.ok && exists q, qs :: Comes(c, d, p, Result(true, q)) && Repeats(c, d, q, qs, r.pos) {
        var q, qs :| Comes(c, d, p, Result(true, q)) && Repeats(c, d, q, qs, r.pos);
        Agree(c, d, p, Result(true, q));
        RepeatsOnly(c, d, q, qs, r.pos);
      }
    }
  }

  lemma TryAgrees(h: Grammar, d: seq<byte>)
    requires Repeatable(h) && Agrees(h, d)
    ensures Agrees(Try(h), d)
  {
    forall p: nat, r {:trigger Comes(Try(h), d, p, r)} | p <= |d|
      ensures Comes(Try(h), d, p, r) <==> r == Parse(Try(h), d, p)
    {
      Agree(h, d, p, Parse(h, d, p));
      Agree(h, d, p, r);
    }
  }

  lemma AndAgrees(a: Grammar, b: Grammar, d: seq<byte>)
    requires Repeatable(a) && Repeatable(b) && Agrees(a, d) && Agrees(b, d)
    ensures Agrees(And(a, b), d)
  {
    forall p: nat, r {:trigger Comes(And(a, b), d, p, r)} | p <= |d|
      ensures Comes(And(a, b), d, p, r) <==> r == Parse(And(a, b), d, p)
    {
      hide Agrees;
      var f := Parse(a, d, p);
      Agree(a, d, p, f);
      Agree(a, d, p, r);
      Agree(b, d, f.pos, r);
      if q :| Comes(a, d, p, Result(true, q)) && Comes(b, d, q, r) {
        Agree(a, d, p, Result(true, q));
      }
    }
  }

  lemma OrAgrees(a: Grammar, b: Grammar, d: seq<byte>)
    requires Repeatable(a) && Repeatable(b) && Agrees(a, d) && Agrees(b, d)
    ensures Agrees(Or(a, b), d)
  {
    forall p: nat, r {:trigger Comes(Or(a, b), d, p, r)} | p <= |d|
      ensures Comes(Or(a, b), d, p, r) <==> r == Parse(Or(a, b), d, p)
    {
      hide Agrees;
      var f := Parse(a, d, p);
      Agree(a, d, p, f);
      Agree(a, d, p, r);
      Agree(b, d, f.pos, r);
      if q :| Comes(a, d, p, Result(false, q)) && Comes(b, d, q, r) {
        Agree(a, d, p, Result(false, q));
      }
    }
  }

  lemma UntilAgrees(c: Grammar, stop: Grammar, d: seq<byte>)
    requires Repeatable(Until(c, stop)) && Agrees(c, d) && Agrees(stop, d)
    ensures Agrees(Until(c, stop), d)
  {
    forall p: nat, r {:trigger Comes(Until(c, stop), d, p, r)} | p <= |d|
      ensures Comes(Until(c, stop), d, p, r) <==> r == Parse(Until(c, stop), d, p)
    {
      hide Agrees, Seeks;
      UntilIsFind(c, stop, d, p);
      var qs := SeeksTo(c, stop, d, p);
      if qs :| Seeks(c, stop, d, p, qs, r) {
        SeeksOnly(c, stop, d, p, qs, r);
      }
    }
  }

  // What a turn of sbuf_until comes to.
  lemma TurnIs(c: Grammar, stop: Grammar, d: seq<byte>, p: nat, r: Result)
    requires Repeatable(c) && Repeatable(stop) && Agrees(c, d) && Agrees(stop, d) && p <= |d|
    ensures var s := Parse(stop, d, p); Turn(c, stop, d, p, r) <==> !s.ok && r == Parse(c, d, s.pos)
  {
    hide Comes, Parse, Agrees;
    var s := Parse(stop, d, p);
    Agree(stop, d, p, s);
    Agree(c, d, s.pos, r);
    if q :| Comes(stop, d, p, Result(false, q)) && Comes(c, d, q, r) {
      Agree(stop, d, p, Result(false, q));
    }
  }

  lemma {:induction false} SeeksTo(c: Grammar, stop: Grammar, d: seq<byte>, p: nat) returns (qs: seq<nat>)
    requires Repeatable(Until(c, stop)) && Agrees(c, d) && Agrees(stop, d) && p <= |d|
    ensures Seeks(c, stop, d, p, qs, Find(c, stop, d, p))
    decreases |d| - p
  {
    hide Comes, Parse, Agrees, Turn, Find;
    FindUnfold(c, stop, d, p);
    var s := Parse(stop, d, p);
    var r := Parse(c, d, s.pos);
    Agree(stop, d, p, s);
    TurnIs(c, stop, d, p, r);
    if !s.ok && r.ok {
      var rest := SeeksTo(c, stop, d, r.pos);
      qs := [p] + rest;
      forall i {:trigger qs[i]} | 0 < i < |qs| ensures Turn(c, stop, d, qs[i - 1], Result(true, qs[i])) {
        if i > 1 {
          assert qs[i] == rest[i - 1];
        }
      }
    } else {
      qs := [p];
    }
  }

  lemma {:induction false} SeeksOnly(c: Grammar, stop: Grammar, d: seq<byte>, p: nat, qs: seq<nat>, r: Result)
    requires Repeatable(Until(c, stop)) && Agrees(c, d) && Agrees(stop, d) && p <= |d| && Seeks(c, stop, d, p, qs, r)
    ensures r == Find(c, stop, d, p)
    decreases |qs|
  {
    hide Comes, Parse, Agrees, Turn, Find;
    FindUnfold(c, stop, d, p);
    if |qs| == 1 {
      Agree(stop, d, p, r);
      TurnIs(c, stop, d, p, r);
    } else {
      assert Turn(c, stop, d, qs[0], Result(true, qs[1]));
      TurnIs(c, stop, d, p, Result(true, qs[1]));
      SeeksOnly(c, stop, d, qs[1], qs[1..], r);
    }
  }
}
