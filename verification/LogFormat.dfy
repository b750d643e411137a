/** The template language of LoggyMcLogFace::log and the log file as a byte sequence with a write position. */
module LogFormat {
  const LOG_READY: nat := 31  // bit number of the ready flag in m_valid_functions
  const LOG_NOT_READY_ERROR := -4
  const NOT_VALID_FUNCTION_VAR := -5
  const FUNCTION_NEVER_DEFINED := -6
  const MORE_VALUES_THEN_FUNCTION_CALLS := -7
  const LESS_VALUES_THEN_FUNCTION_CALLS := -8

  predicate Letter(c: char) { 'a' <= c <= 'z' }

  function Bit(c: char): nat
    requires Letter(c)
  {
    c as int - 'a' as int
  }

  /** The letters fill the 26 places of the table. */
  lemma LettersFillTable(k: nat)
    requires k < 26
    ensures exists c: char :: Letter(c) && Bit(c) == k
    ensures forall c: char | Letter(c) :: Bit(c) < 26
  {
    var c := 'a' + k as char;
    assert Letter(c) && Bit(c) == k;
  }

  /** Which letters are registered, and the table that gives their text. */
  datatype Interpreters<!V> = Interpreters(valid: set<nat>, funs: seq<V -> string>) {
    ghost predicate WellFormed() { |funs| == 26 }
    predicate Registered(c: char) { Letter(c) && Bit(c) in valid }
  }

  // ---------- The interpreter, as the loop of log runs it ----------

  /** A formatted text, or an error code with the text written before the error was met. */
  datatype Outcome = Line(text: string) | Error(code: int, partial: string)

  function Prepend(s: string, o: Outcome): Outcome {
    match o
    case Line(t) => Line(s + t)
    case Error(c, p) => Error(c, s + p)
  }

  predicate DirectiveAt(t: string, i: nat) { i + 1 < |t| && t[i] == '/' && t[i + 1] == '%' }

  /** The character after "/%", which is the terminating NUL when the template ends there. */
  function LetterAt(t: string, i: nat): char { if i + 2 < |t| then t[i + 2] else '\0' }

  ghost function Interpret<V>(t: string, i: nat, used: nat, values: seq<V>, n: int, f: Interpreters<V>): Outcome
    requires i <= |t| && n <= |values| && f.WellFormed()
    decreases |t| - i
  {
    if i == |t| then
      if n == used then Line("") else Error(LESS_VALUES_THEN_FUNCTION_CALLS, "")
    else if !DirectiveAt(t, i) then Prepend([t[i]], Interpret(t, i + 1, used, values, n, f))
    else
      var c := LetterAt(t, i);
      if !Letter(c) then Error(NOT_VALID_FUNCTION_VAR, "")
      else if Bit(c) !in f.valid then Error(FUNCTION_NEVER_DEFINED, "")
      else if used + 1 > n then Error(MORE_VALUES_THEN_FUNCTION_CALLS, "")
      else Prepend(f.funs[Bit(c)](values[used]), Interpret(t, i + 3, used + 1, values, n, f))
  }

  /** The interpreter, one position further. */
  lemma InterpretStep<V>(t: string, i: nat, used: nat, values: seq<V>, n: int, f: Interpreters<V>)
    requires i <= |t| && n <= |values| && f.WellFormed()
    ensures var o, c := Interpret(t, i, used, values, n, f), LetterAt(t, i);
            if i == |t| then o == if n == used then Line("") else Error(LESS_VALUES_THEN_FUNCTION_CALLS, "")
            else if !DirectiveAt(t, i) then o == Prepend([t[i]], Interpret(t, i + 1, used, values, n, f))
            else if !Letter(c) then o == Error(NOT_VALID_FUNCTION_VAR, "")
            else if Bit(c) !in f.valid then o == Error(FUNCTION_NEVER_DEFINED, "")
            else if used + 1 > n then o == Error(MORE_VALUES_THEN_FUNCTION_CALLS, "")
            else i + 3 <= |t| && o == Prepend(f.funs[Bit(c)](values[used]), Interpret(t, i + 3, used + 1, values, n, f))
  {
  }

  // ---------- What a template means ----------

  datatype Token = Char(c: char) | Directive(c: char)

  function Tokens(t: string): seq<Token> {
    if t == "" then []
    else if !DirectiveAt(t, 0) then [Char(t[0])] + Tokens(t[1..])
    else if |t| == 2 then [Directive('\0')]
    else [Directive(t[2])] + Tokens(t[3..])
  }

  function Unparse(ts: seq<Token>): string {
    if ts == [] then ""
    else
      (match ts[0]
       case Char(c) => [c]
       case Directive(c) => if c == '\0' then "/%" else ['/', '%', c])
      + Unparse(ts[1..])
  }

  /** Tokens loses nothing of a C string. */
  lemma {:induction false} TokensUnparse(t: string)
    requires '\0' !in t
    ensures Unparse(Tokens(t)) == t
    decreases |t|
  {
    if t != "" {
      if !DirectiveAt(t, 0) {
        TokensUnparse(t[1..]);
        assert t == [t[0]] + t[1..];
      } else if |t| > 2 {
        TokensUnparse(t[3..]);
        assert t == ['/', '%', t[2]] + t[3..];
        assert t[2] in t;
      } else {
        assert t == "/%";
      }
    }
  }

  function Directives(ts: seq<Token>): string {
    if ts == [] then ""
    else (if ts[0].Directive? then [ts[0].c] else "") + Directives(ts[1..])
  }

  /** The directive at position k can be served: a registered letter, and a value is left for it. */
  predicate Served<V>(ds: string, k: nat, used: nat, n: int, f: Interpreters<V>)
    requires k < |ds|
  {
    f.Registered(ds[k]) && used + k < n
  }

  function FaultCode<V>(c: char, f: Interpreters<V>): (code: int)
    ensures code != 0
  {
    if !Letter(c) then NOT_VALID_FUNCTION_VAR
    else if !f.Registered(c) then FUNCTION_NEVER_DEFINED
    else MORE_VALUES_THEN_FUNCTION_CALLS
  }

  /** Result code of a template whose remaining directives are ds after `used` served ones. */
  function Verdict<V>(ds: string, used: nat, n: int, f: Interpreters<V>): int {
    if ds == "" then if used == n then 0 else LESS_VALUES_THEN_FUNCTION_CALLS
    else if f.Registered(ds[0]) && used < n then Verdict(ds[1..], used + 1, n, f)
    else FaultCode(ds[0], f)
  }

  /** Each directive replaced by what its interpreter writes for the next value. */
  function Render<V>(ts: seq<Token>, used: nat, values: seq<V>, f: Interpreters<V>): string
    requires f.WellFormed()
  {
    if ts == [] then ""
    else
      match ts[0]
      case Char(c) => [c] + Render(ts[1..], used, values, f)
      case Directive(c) =>
        (if Letter(c) && used < |values| then f.funs[Bit(c)](values[used]) else "")
        + Render(ts[1..], used + 1, values, f)
  }

  /** The tokens before the first directive that cannot be served. */
  function ServedPart<V>(ts: seq<Token>, used: nat, n: int, f: Interpreters<V>): (k: nat)
    ensures k <= |ts|
  {
    if ts == [] then 0
    else if ts[0].Char? then 1 + ServedPart(ts[1..], used, n, f)
    else if f.Registered(ts[0].c) && used < n then 1 + ServedPart(ts[1..], used + 1, n, f)
    else 0
  }

  ghost predicate Means<V>(ts: seq<Token>, used: nat, values: seq<V>, n: int, f: Interpreters<V>, o: Outcome)
    requires f.WellFormed()
  {
    var code := Verdict(Directives(ts), used, n, f);
    if code == 0 then o == Line(Render(ts, used, values, f))
    else o == Error(code, Render(ts[..ServedPart(ts, used, n, f)], used, values, f))
  }

  lemma PartTail(ts: seq<Token>, k: nat)
    requires k < |ts|
    ensures ts[..k + 1][0] == ts[0] && ts[..k + 1][1..] == ts[1..][..k]
  {
  }

  lemma {:induction false} InterpretMeans<V>(t: string, i: nat, used: nat, values: seq<V>, n: int, f: Interpreters<V>)
    requires i <= |t| && n <= |values| && f.WellFormed()
    ensures Means(Tokens(t[i..]), used, values, n, f, Interpret(t, i, used, values, n, f))
    decreases |t| - i
  {
    var r := t[i..];
    if i < |t| && !DirectiveAt(t, i) {
      InterpretMeans(t, i + 1, used, values, n, f);
      assert r[1..] == t[i + 1..];
      assert Tokens(r)[0] == Char(t[i]) && Tokens(r)[1..] == Tokens(t[i + 1..]);
      assert Directives(Tokens(r)) == Directives(Tokens(t[i + 1..]));
      PartTail(Tokens(r), ServedPart(Tokens(t[i + 1..]), used, n, f));
    } else if i < |t| {
      var c := LetterAt(t, i);
      var rest := if |r| == 2 then [] else Tokens(r[3..]);
      assert Tokens(r)[0] == Directive(c) && Tokens(r)[1..] == rest;
      assert Directives(Tokens(r)) == [c] + Directives(rest);
      if f.Registered(c) && used < n {
        InterpretMeans(t, i + 3, used + 1, values, n, f);
        assert r[3..] == t[i + 3..];
        PartTail(Tokens(r), ServedPart(rest, used + 1, n, f));
      }
    }
  }

  lemma {:induction false} VerdictIsLeftmost<V>(ds: string, used: nat, n: int, f: Interpreters<V>)
    ensures Verdict(ds, used, n, f) == 0 <==>
              used + |ds| == n && forall k: nat | k < |ds| :: f.Registered(ds[k])
    ensures forall k: nat | k < |ds| && (forall j: nat | j < k :: Served(ds, j, used, n, f)) && !Served(ds, k, used, n, f) ::
              Verdict(ds, used, n, f) == FaultCode(ds[k], f)
    ensures (forall k: nat | k < |ds| :: Served(ds, k, used, n, f)) && used + |ds| != n ==>
              Verdict(ds, used, n, f) == LESS_VALUES_THEN_FUNCTION_CALLS
    decreases |ds|
  {
    if ds != "" {
      var rest, u := ds[1..], used + 1;
      VerdictIsLeftmost(rest, u, n, f);
      forall k: nat | k < |rest|
        ensures rest[k] == ds[k + 1] && Served(rest, k, u, n, f) == Served(ds, k + 1, used, n, f)
      {
      }
      forall k: nat | k < |ds| && (forall j: nat | j < k :: Served(ds, j, used, n, f)) && !Served(ds, k, used, n, f)
        ensures Verdict(ds, used, n, f) == FaultCode(ds[k], f)
      {
        if k > 0 {
          assert Served(ds, 0, used, n, f);
          forall j: nat | j < k - 1
            ensures Served(rest, j, u, n, f)
          {
            assert Served(ds, j + 1, used, n, f);
          }
        }
      }
      if forall k: nat | k < |ds| :: Served(ds, k, used, n, f) {
        assert Served(ds, 0, used, n, f);
        forall j: nat | j < |rest|
          ensures Served(rest, j, u, n, f)
        {
          assert Served(ds, j + 1, used, n, f);
        }
      }
    }
  }

  /**
   log succeeds exactly when every directive names a registered letter and there are as many directives
   as values, and then writes the rendered template; otherwise the leftmost faulty directive decides the code.
   */
  lemma LogMeaning<V>(t: string, values: seq<V>, n: int, f: Interpreters<V>)
    requires n <= |values| && f.WellFormed()
    ensures var ds, o := Directives(Tokens(t)), Interpret(t, 0, 0, values, n, f);
            && (o.Line? <==> (forall k: nat | k < |ds| :: f.Registered(ds[k])) && |ds| == n)
            && (o.Line? ==> o.text == Render(Tokens(t), 0, values, f))
            && (forall k: nat | k < |ds| && (forall j: nat | j < k :: Served(ds, j, 0, n, f)) && !Served(ds, k, 0, n, f) ::
                  o.Error? && o.code == FaultCode(ds[k], f))
            && ((forall k: nat | k < |ds| :: Served(ds, k, 0, n, f)) && |ds| != n ==>
                  o.Error? && o.code == LESS_VALUES_THEN_FUNCTION_CALLS)
  {
    InterpretMeans(t, 0, 0, values, n, f);
    assert t[0..] == t;
    VerdictIsLeftmost(Directives(Tokens(t)), 0, n, f);
  }

  /** What stands for token k: a character for itself, the j-th directive for what its interpreter makes of the j-th value. */
  function Piece<V>(ts: seq<Token>, k: nat, used: nat, values: seq<V>, f: Interpreters<V>): string
    requires f.WellFormed() && k < |ts|
  {
    var j := used + |Directives(ts[..k])|;
    if ts[k].Char? then [ts[k].c]
    else if Letter(ts[k].c) && j < |values| then f.funs[Bit(ts[k].c)](values[j]) else ""
  }

  function Join(pieces: seq<string>): string { if pieces == [] then "" else pieces[0] + Join(pieces[1..]) }

  lemma {:induction false} RenderPieces<V>(ts: seq<Token>, used: nat, values: seq<V>, f: Interpreters<V>)
    requires f.WellFormed()
    ensures Render(ts, used, values, f)
         == Join(seq(|ts|, k requires 0 <= k < |ts| => Piece(ts, k, used, values, f)))
    decreases |ts|
  {
    var pieces := seq(|ts|, k requires 0 <= k < |ts| => Piece(ts, k, used, values, f));
    if ts != [] {
      var rest, u := ts[1..], if ts[0].Directive? then used + 1 else used;
      RenderPieces(rest, u, values, f);
      forall k: nat | k < |rest|
        ensures pieces[k + 1] == Piece(rest, k, u, values, f)
      {
        PartTail(ts, k);
        assert ts[..k + 1] != [];
      }
      assert pieces[1..] == seq(|rest|, k requires 0 <= k < |rest| => Piece(rest, k, u, values, f));
      assert ts[..0] == [];
    }
  }

  // ---------- Writing piece by piece ----------

  lemma PrependPrepend(a: string, b: string, o: Outcome)
    ensures Prepend(a, Prepend(b, o)) == Prepend(a + b, o)
  {
    assert a + (b + (if o.Line? then o.text else o.partial)) == a + b + (if o.Line? then o.text else o.partial);
  }

  // ---------- The file ----------

  /** Bytes written so far and the position of the next write. Seeking back does not truncate. */
  datatype File = File(content: string, pos: nat) {
    ghost predicate WellFormed() { pos <= |content| }

    function Put(s: string): (f: File)
      requires pos <= |content|
      ensures f.pos == pos + |s| <= |f.content|
      ensures f.content[..f.pos] == content[..pos] + s
    {
      var end := pos + |s|;
      File(content[..pos] + s + (if end < |content| then content[end..] else ""), end)
    }
  }

  /** A write replaces what stands at its place and leaves what stands beyond: seeking back did not cut it off. */
  lemma PutOverwrites(f: File, s: string)
    requires f.WellFormed()
    ensures var g := f.Put(s);
            && g.pos == f.pos + |s| && g.content[..g.pos] == f.content[..f.pos] + s
            && g.content[g.pos..] == if g.pos < |f.content| then f.content[g.pos..] else ""
  {
  }

  lemma PutPut(f: File, a: string, b: string)
    requires f.WellFormed()
    ensures f.Put(a).Put(b) == f.Put(a + b)
  {
  }

  /** One call of log on an open logger: the time stamp as given text, and the interpreters registered by then. */
  datatype Call<!V> = Call(stamp: string, t: string, values: seq<V>, n: int, table: Interpreters<V>)

  ghost predicate GoodCall<V>(c: Call<V>) { c.n <= |c.values| && c.table.WellFormed() }

  ghost function LogStep<V>(file: File, c: Call<V>): (r: (File, int))
    requires file.WellFormed() && GoodCall(c)
    ensures r.0.WellFormed()
  {
    match Interpret(c.t, 0, 0, c.values, c.n, c.table)
    case Line(text) => (file.Put(c.stamp + text + "\n"), 0)
    case Error(code, partial) => (file.Put(c.stamp + partial).(pos := file.pos), code)
  }

  /** The line a call contributes: nothing when it fails. */
  ghost function LineOf<V>(c: Call<V>): string
    requires GoodCall(c)
  {
    match Interpret(c.t, 0, 0, c.values, c.n, c.table)
    case Line(text) => c.stamp + text + "\n"
    case Error(_, _) => ""
  }

  ghost function Run<V>(file: File, calls: seq<Call<V>>): (r: File)
    requires file.WellFormed() && forall c | c in calls :: GoodCall(c)
    ensures r.WellFormed()
  {
    if calls == [] then file else LogStep(Run(file, calls[..|calls| - 1]), calls[|calls| - 1]).0
  }

  ghost function Lines<V>(calls: seq<Call<V>>): string
    requires forall c | c in calls :: GoodCall(c)
  {
    if calls == [] then "" else Lines(calls[..|calls| - 1]) + LineOf(calls[|calls| - 1])
  }

  lemma LogStepAppends<V>(file: File, c: Call<V>)
    requires file.WellFormed() && GoodCall(c)
    ensures var r := LogStep(file, c).0; r.content[..r.pos] == file.content[..file.pos] + LineOf(c)
  {
    var o := Interpret(c.t, 0, 0, c.values, c.n, c.table);
    if o.Error? {
      var put := file.Put(c.stamp + o.partial);
      assert put.content[..file.pos] == put.content[..put.pos][..file.pos];
    }
  }

  /**
   One call of log on an open logger: its code is 0 exactly if every directive is registered and there are as
   many as values, and otherwise that of the leftmost directive that cannot be served, or of values left over.
   The text before the position grows by the whole line exactly then; after an error the position is the old one.
   */
  lemma LogOutcome<V>(file: File, c: Call<V>)
    requires file.WellFormed() && GoodCall(c)
    ensures var (after, code) := LogStep(file, c);
            var ts, f := Tokens(c.t), c.table;
            var ds := Directives(ts);
            && (code == 0 <==> (forall k: nat | k < |ds| :: f.Registered(ds[k])) && |ds| == c.n)
            && (forall k: nat | k < |ds| && (forall j: nat | j < k :: Served(ds, j, 0, c.n, f)) && !Served(ds, k, 0, c.n, f) ::
                  code == if !Letter(ds[k]) then NOT_VALID_FUNCTION_VAR
                          else if !f.Registered(ds[k]) then FUNCTION_NEVER_DEFINED else MORE_VALUES_THEN_FUNCTION_CALLS)
            && ((forall k: nat | k < |ds| :: Served(ds, k, 0, c.n, f)) && |ds| != c.n ==>
                  code == LESS_VALUES_THEN_FUNCTION_CALLS)
            && (code == 0 ==> after == file.Put(c.stamp + Render(ts, 0, c.values, f) + "\n"))
            && (code != 0 ==>
                  var left := file.Put(c.stamp + Render(ts[..ServedPart(ts, 0, c.n, f)], 0, c.values, f));
                  after == File(left.content, file.pos))
            && after.content[..after.pos] == file.content[..file.pos]
                  + if code == 0 then c.stamp + Render(ts, 0, c.values, f) + "\n" else ""
  {
    LogMeaning(c.t, c.values, c.n, c.table);
    InterpretMeans(c.t, 0, 0, c.values, c.n, c.table);
    assert c.t[0..] == c.t;
    VerdictIsLeftmost(Directives(Tokens(c.t)), 0, c.n, c.table);
    LogStepAppends(file, c);
  }

  /**
   Transactional: before the write position stand exactly the successful lines, whatever was left beyond
   it and whatever interpreters were registered between the calls.
   */
  lemma {:induction false} FailedCallsLeaveNoTrace<V>(file: File, calls: seq<Call<V>>)
    requires file.WellFormed() && forall c | c in calls :: GoodCall(c)
    ensures var r := Run(file, calls); r.content[..r.pos] == file.content[..file.pos] + Lines(calls)
  {
    if calls != [] {
      FailedCallsLeaveNoTrace(file, calls[..|calls| - 1]);
      LogStepAppends(Run(file, calls[..|calls| - 1]), calls[|calls| - 1]);
    }
  }
}
