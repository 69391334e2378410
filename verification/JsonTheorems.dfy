/** The main results about the recognizer, for every input. */
module JsonTheorems {
  import opened Bytes
  import opened Rfc8259
  import opened Selection
  import opened JsonMachine
  import opened JsonForward
  import opened JsonContainers
  import opened JsonBackward

  // s is a stream of JSON objects within the limits on nesting and on selected values.
  ghost predicate IsObjectStream(s: Bytes) {
    exists d :: ValidDocument(d) && DocumentFits(d) && PrintDocument(d) == s
  }

  /** A fresh recognizer is complete after exactly the streams of JSON objects within its limits. */
  lemma Recognizes(s: Bytes)
    ensures Complete(Run(FRESH, s)) <==> IsObjectStream(s)
  {
    if Complete(Run(FRESH, s)) {
      var d := AcceptedDocument(FRESH, s);
    }
    if IsObjectStream(s) {
      var d :| ValidDocument(d) && DocumentFits(d) && PrintDocument(d) == s;
      RunDocument(FRESH, d);
    }
  }

  /**
   On such a stream it reports one map for each root object, in order: that
   object's last value at each selected path. It notes a long field name
   exactly when there is one.
   */
  lemma Reports(d: Document)
    requires ValidDocument(d) && DocumentFits(d)
    ensures Run(FRESH, PrintDocument(d)) == Live([], Idle, LongKeyDocument(d), map[], Extracts(d))
  {
    RunDocument(FRESH, d);
  }

  // The last value at location loc in the object v is raw.
  ghost predicate LastAt(v: Value, loc: Loc, raw: Bytes) {
    var occs := RootOccurrences(v);
    exists i :: IsLast(occs, i) && occs[i] == Occurrence(loc, raw)
  }

  /**
   What is reported of an object binds a path to a value exactly when the path
   is one of the sixteen and the value is the last one found there.
   */
  lemma ReportsLast(v: Value, path: string, raw: Bytes)
    ensures path in Extract(v) && Extract(v)[path] == raw <==>
            exists loc :: loc in LISTED && Dottable(loc) && Dotted(loc) == path && LastAt(v, loc, raw)
  {
    var occs := RootOccurrences(v);
    RecordIsLast(occs);
    if path in Extract(v) && Extract(v)[path] == raw {
      var i :| IsLast(occs, i) && Selected(occs[i].loc) && Dotted(occs[i].loc) == path;
      SelectedIsListed(occs[i].loc);
      assert occs[i] == Occurrence(occs[i].loc, raw);
      assert LastAt(v, occs[i].loc, raw);
    }
    if exists loc :: loc in LISTED && Dottable(loc) && Dotted(loc) == path && LastAt(v, loc, raw) {
      var loc :| loc in LISTED && Dottable(loc) && Dotted(loc) == path && LastAt(v, loc, raw);
      SelectedIsListed(loc);
      var i :| IsLast(occs, i) && occs[i] == Occurrence(loc, raw);
    }
  }

  // ---- What stands for a value ----------------------------------------------------------

  // A token, or the brackets of a container.
  ghost predicate IsRaw(raw: Bytes) {
    ValidToken(raw) || raw == "{}" || raw == "[]"
  }

  ghost predicate AllRaw(f: Fields) {
    forall key :: key in f ==> IsRaw(f[key])
  }

  ghost predicate RawOccurrences(occs: seq<Occurrence>) {
    forall i :: 0 <= i < |occs| ==> IsRaw(occs[i].raw)
  }

  lemma TokenRaw(v: Value)
    requires ValidValue(v) && (v.Text? || v.Bare?)
    ensures IsRaw(PrintValue(v))
  {
    if v.Text? {
      UnquoteString(v.chars);
    } else {
      ScalarStart(v.token);
    }
  }

  lemma {:induction false} ValueRaw(v: Value, loc: Loc)
    requires ValidValue(v)
    ensures RawOccurrences(Occurrences(v, loc))
  {
    hide ValidToken;
    match v {
      case Text(_) => TokenRaw(v);
      case Bare(_) => TokenRaw(v);
      case Object(ms) => MembersRaw(ms, loc);
      case Array(es) => ElemsRaw(es, loc);
      case _ =>
    }
  }

  lemma {:induction false} MembersRaw(ms: Members, loc: Loc)
    requires ValidMembers(ms)
    ensures RawOccurrences(MemberOccurrences(ms, loc))
  {
    hide IsRaw;
    match ms {
      case LastMember(m) => ValueRaw(m.value, loc + [Key(KeyName(m.key))]);
      case MoreMembers(m, rest) =>
        ValueRaw(m.value, loc + [Key(KeyName(m.key))]);
        MembersRaw(rest, loc);
    }
  }

  lemma {:induction false} ElemsRaw(es: Elems, loc: Loc)
    requires ValidElems(es)
    ensures RawOccurrences(ElemOccurrences(es, loc))
  {
    hide IsRaw;
    match es {
      case LastElem(e) => ValueRaw(e.value, loc + [Index]);
      case MoreElems(e, rest) =>
        ValueRaw(e.value, loc + [Index]);
        ElemsRaw(rest, loc);
    }
  }

  /** What is reported of an object is a token for each path, or the brackets of a container. */
  lemma ReportsTokens(v: Value)
    requires ValidValue(v)
    ensures AllRaw(Extract(v))
  {
    hide IsRaw;
    RecordIsLast(RootOccurrences(v));
    if v.Object? {
      MembersRaw(v.members, []);
    }
  }

  /** Every state reached from a fresh recognizer is bounded, whatever the input. */
  lemma ReachableBounded(s: Bytes)
    ensures Inv(Run(FRESH, s))
    ensures Run(FRESH, s).Live? ==> |Run(FRESH, s).stack| <= 64 && |Run(FRESH, s).fields| <= 16
    ensures Run(FRESH, s).Live? ==>
              match Run(FRESH, s).lex
              case Idle => true
              case Str(isKey, tok, _) => |tok.kept| <= if isKey then 128 else 4096
              case Scalar(tok, _) => |tok.kept| <= 4096
    ensures forall k :: Run(FRESH, s).Live? && k in Run(FRESH, s).fields ==> |Run(FRESH, s).fields[k]| <= 4096
  {
    RunInv(FRESH, s);
    if Run(FRESH, s).Live? {
      FieldCount(Run(FRESH, s).fields);
    }
  }
}
