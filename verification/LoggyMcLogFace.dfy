/** The logger class: registration of interpreters, and log with its rollback of the write position. */
module Logger {
  import opened LogFormat

  class LoggyMcLogFace<V> {
    var m_file: File
    var m_valid_functions: set<nat>               // bits of the int32_t mask
    const m_functions: array<V -> string>

    ghost predicate Valid()
      reads this, m_functions
    {
      m_functions.Length == 26 && m_file.WellFormed()
    }

    ghost function Table(): (f: Interpreters<V>)
      reads this, m_functions
    {
      Interpreters(m_valid_functions, m_functions[..])
    }

    constructor (isOpen: bool)
      ensures Valid() && fresh(m_functions)
      ensures m_file == File("", 0) && m_valid_functions == if isOpen then {LOG_READY} else {}
    {
      m_functions := new (V -> string)[26](_ => v => "");
      m_file := File("", 0);
      m_valid_functions := if isOpen then {LOG_READY} else {};
    }

    /** Registers a letter; the other letters and the ready flag stay as they are. */
    method AddInterpreter(t_letter: char, t_function: V -> string)
      requires Valid()
      modifies `m_valid_functions, m_functions
      ensures Valid()
      ensures !Letter(t_letter) ==> Table() == old(Table())
      ensures Letter(t_letter) ==>
                && Table().Registered(t_letter) && Table().funs[Bit(t_letter)] == t_function
                && Table().funs == old(Table()).funs[Bit(t_letter) := t_function]
      ensures forall c | c != t_letter :: Table().Registered(c) == old(Table()).Registered(c)
      ensures LOG_READY in m_valid_functions <==> LOG_READY in old(m_valid_functions)
    {
      if t_letter <= 'z' && t_letter >= 'a' {
        m_functions[t_letter as int - 'a' as int] := t_function;
        m_valid_functions := m_valid_functions + {t_letter as int - 'a' as int};
      }
    }

    /** t_str is a C string: its first NUL is its last element. */
    static predicate CString(t_str: string) {
      |t_str| > 0 && t_str[|t_str| - 1] == '\0' && '\0' !in t_str[..|t_str| - 1]
    }

    /** What the loop sees at an index is what the specification sees there; the look-ahead stops at the NUL. */
    static lemma CharsAt(t_str: string, i: nat)
      requires CString(t_str) && i < |t_str| && t_str[i] != '\0'
      ensures var t := t_str[..|t_str| - 1];
              && i < |t| && t[i] == t_str[i]
              && (t_str[i] == '/' && t_str[i + 1] == '%' <==> DirectiveAt(t, i))
              && (DirectiveAt(t, i) ==> i + 2 < |t_str| && t_str[i + 2] == LetterAt(t, i))
              && (DirectiveAt(t, i) && Letter(LetterAt(t, i)) ==> i + 3 <= |t|)
    {
    }

    /** The call as the specification sees it; stamp is the text of the current time. */
    static function Seen(stamp: string, t_str: string, t_values: seq<V>, t_num_values: int, table: Interpreters<V>): Call<V>
      requires CString(t_str)
    {
      Call(stamp, t_str[..|t_str| - 1], t_values, t_num_values, table)
    }

    /** One write to the stream; what was written since base grows, and the outcome of the rest goes behind it. */
    method Write(s: string, ghost base: File, ghost stamp: string, ghost written: string, ghost rest: Outcome)
      returns (ghost written': string)
      requires m_file.WellFormed() && base.WellFormed() && m_file == base.Put(stamp + written)
      modifies `m_file
      ensures m_file.WellFormed() && m_file == base.Put(stamp + written')
      ensures written' == written + s && Prepend(written', rest) == Prepend(written, Prepend(s, rest))
    {
      written' := written + s;
      PutPut(base, stamp + written, s);
      PrependPrepend(written, s, rest);
      assert stamp + written + s == stamp + written';
      m_file := m_file.Put(s);
    }

    method Log(t_str: string, t_values: seq<V>, t_num_values: int, stamp: string) returns (ret: int)
      requires Valid() && CString(t_str) && t_num_values <= |t_values|
      modifies `m_file
      ensures Valid()
      ensures LOG_READY !in m_valid_functions ==> ret == LOG_NOT_READY_ERROR && m_file == old(m_file)
      ensures LOG_READY in m_valid_functions ==>
                (m_file, ret) == LogStep(old(m_file), Seen(stamp, t_str, t_values, t_num_values, Table()))
    {
      hide Interpret;
      if LOG_READY in m_valid_functions {
        var pos := m_file.pos;
        var vars_used := 0;
        var index := 0;
        ghost var base, t, n, f := m_file, t_str[..|t_str| - 1], t_num_values, Table();
        ghost var written := "";
        ghost var rest := Interpret(t, 0, 0, t_values, n, f);
        m_file := m_file.Put(stamp);
        assert stamp + written == stamp;
        while t_str[index] != '\0'
          invariant index <= |t| && m_file.WellFormed() && m_file == base.Put(stamp + written)
          invariant rest == Interpret(t, index, vars_used, t_values, n, f)
          invariant Interpret(t, 0, 0, t_values, n, f) == Prepend(written, rest)
          decreases |t| - index
        {
          CharsAt(t_str, index);
          InterpretStep(t, index, vars_used, t_values, n, f);
          assert written + "" == written;
          if t_str[index] == '/' {
            if t_str[index + 1] == '%' {
              var fun := t_str[index + 2];
              if fun as int - 'a' as int < 0 || fun as int - 'a' as int > 25 {
                m_file := m_file.(pos := pos);
                return NOT_VALID_FUNCTION_VAR;
              } else {
                if fun as int - 'a' as int in m_valid_functions {
                  vars_used := vars_used + 1;
                  if vars_used > t_num_values {
                    m_file := m_file.(pos := pos);
                    return MORE_VALUES_THEN_FUNCTION_CALLS;
                  }
                  index := index + 3;
                  var text := m_functions[fun as int - 'a' as int](t_values[vars_used - 1]);
                  rest := Interpret(t, index, vars_used, t_values, n, f);
                  written := Write(text, base, stamp, written, rest);
                  continue;
                } else {
                  m_file := m_file.(pos := pos);
                  return FUNCTION_NEVER_DEFINED;
                }
              }
            }
          }
          rest := Interpret(t, index + 1, vars_used, t_values, n, f);
          written := Write([t_str[index]], base, stamp, written, rest);
          index := index + 1;
        }
        assert index == |t|;
        InterpretStep(t, index, vars_used, t_values, n, f);
        assert written + "" == written;
        if t_num_values != vars_used {
          m_file := m_file.(pos := pos);
          return LESS_VALUES_THEN_FUNCTION_CALLS;
        }
        ghost var line := Write("\n", base, stamp, written, rest);
        assert stamp + line == stamp + written + "\n";
        return 0;
      }
      return LOG_NOT_READY_ERROR;
    }
  }
}
