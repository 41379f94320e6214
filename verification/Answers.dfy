/** The answers to rule commands, and the FARs and QERs that are stored after them. */
module Answers {
  import opened Base
  import opened Rules
  import opened Classifier
  import opened RuleEngine
  import PdrFields

  /** The rule that the command is about is stored. */
  predicate Stored(s: Dev, c: Command) {
    match c
    case PutFar(k, _, _, _) => k in s.fars
    case DelFar(k) => k in s.fars
    case PutQer(k, _, _) => k in s.qers
    case DelQer(k) => k in s.qers
    case PutPdr(k, _, _) => k in s.pdrs
    case DelPdr(k) => k in s.pdrs
  }

  predicate IsPut(c: Command) { c.PutFar? || c.PutQer? || c.PutPdr? }

  /** ANSWERS.  Which command is answered with which status; whatever is refused because the rule
      exists or does not, or ends in a fault, changes nothing. */
  lemma AnswerIs(cfg: Config, s: Dev, c: Command)
    requires Inv(cfg, s)
    ensures
      var (s', st) := Step(cfg, s, c);
      && (st == Exists <==> IsPut(c) && Stored(s, c) && c.flags.excl)
      && (st == NotSupported <==>
            IsPut(c) && !c.flags.replace && if Stored(s, c) then !c.flags.excl else c.flags.append)
      && (st == NoEntry <==> !Stored(s, c) && (IsPut(c) ==> c.flags.replace))
      && (st == NullPointer <==>
            && c.PutPdr? && !Stored(s, c) && !c.flags.replace && !c.flags.append
            && c.attrs.precedence.Some? && c.attrs.farId.None?)
      && (st in {Exists, NotSupported, NoEntry, NullPointer, PoisonedList} ==> s' == s)
      && (c.PutFar? && st in {Ok, Invalid} ==> (st == Ok <==> c.paramsOk && (Stored(s, c) || c.hasAction)))
      && (c.PutPdr? && st in {Ok, Invalid} ==>
            (st == Ok <==>
               && (Stored(s, c) || c.attrs.precedence.Some?) && c.attrs.socketOk
               && Key(c.key.seid, if c.attrs.farId.Some? then c.attrs.farId.value
                                  else if Stored(s, c) then s.pdrs[c.key].farId else 0) in s.fars))
      && (st == Invalid ==> c.PutFar? || c.PutPdr?)
  {
    RelatedSize(cfg, s);
    hide Inv, SetFar, ClearRate, DoPutPdr, DoDelPdr;
    if c.PutPdr? { PutPdrAnswer(cfg, s, c.key, c.flags, c.attrs); }
    if c.DelPdr? { DelPdrAnswer(cfg, s, c.key); }
  }

  lemma PutPdrAnswer(cfg: Config, s: Dev, k: Key, flags: Flags, a: PdrAttrs)
    requires Inv(cfg, s)
    ensures
      var (s', st) := DoPutPdr(cfg, s, k, flags, a);
      var far := Key(k.seid, if a.farId.Some? then a.farId.value else if k in s.pdrs then s.pdrs[k].farId else 0);
      && (st == Exists <==> k in s.pdrs && flags.excl)
      && (st == NotSupported <==> !flags.replace && if k in s.pdrs then !flags.excl else flags.append)
      && (st == NoEntry <==> k !in s.pdrs && flags.replace)
      && (st == NullPointer <==>
            k !in s.pdrs && !flags.replace && !flags.append && a.precedence.Some? && a.farId.None?)
      && (st in {Exists, NotSupported, NoEntry, NullPointer, PoisonedList} ==> s' == s)
      && (st in {Ok, Invalid} ==>
            (st == Ok <==> (k in s.pdrs || a.precedence.Some?) && a.socketOk && far in s.fars))
  {
    RelatedSize(cfg, s);
    hide Inv, HasPoison, Linked, Install, Orphan, Drop;
  }

  lemma DelPdrAnswer(cfg: Config, s: Dev, k: Key)
    requires Inv(cfg, s)
    ensures
      var (s', st) := DoDelPdr(cfg, s, k);
      st in {Ok, NoEntry, PoisonedList} && (st == NoEntry <==> k !in s.pdrs) && (st != Ok ==> s' == s)
  {
    RelatedSize(cfg, s);
    hide Inv, HasPoison, Denode, Drop;
  }

  /** THE INSTALLED PDRS after a command: an accepted command about a PDR installs it, one that is invalid
      only after its attributes were looked at frees it, and a delete removes it. */
  lemma PdrsAfter(cfg: Config, s: Dev, c: Command)
    requires Inv(cfg, s)
    ensures
      var (s', st) := Step(cfg, s, c);
      && s'.pdrs.Keys ==
           (if c.PutPdr? && st == Ok then s.pdrs.Keys + {c.key}
            else if (c.PutPdr? && st == Invalid) || (c.DelPdr? && st == Ok) then s.pdrs.Keys - {c.key}
            else s.pdrs.Keys)
      && (c.PutPdr? || c.DelPdr? ==> forall k :: k in s.pdrs && k != c.key ==> s'.pdrs[k] == s.pdrs[k])
  {
    RelatedSize(cfg, s);
    hide Inv, SetFar, ClearRate, DoPutPdr, DoDelPdr, FillPdr, Linked;
    if c.PutPdr? { PdrFields.PutPdrs(cfg, s, c.key, c.flags, c.attrs); }
    if c.DelPdr? { DelPdrKeys(cfg, s, c.key); }
  }

  lemma DelPdrKeys(cfg: Config, s: Dev, k: Key)
    requires Inv(cfg, s)
    ensures
      var (s', st) := DoDelPdr(cfg, s, k);
      && s'.pdrs.Keys == (if st == Ok then s.pdrs.Keys - {k} else s.pdrs.Keys)
      && forall x :: x in s.pdrs && x != k ==> s'.pdrs[x] == s.pdrs[x]
  {
    RelatedSize(cfg, s);
    hide Inv, HasPoison, Denode, Unlink;
  }

  /** THE STORED RULES after a command.  A new FAR or QER is a new object and a replaced one stays the
      same object; a QER has policers once any accepted command has given it a rate; FARs whose
      parameters do not parse are gone; PDR commands leave FARs and QERs alone. */
  lemma RulesAfter(cfg: Config, s: Dev, c: Command)
    requires Inv(cfg, s)
    ensures
      var (s', st) := Step(cfg, s, c);
      && s'.fars ==
           (if c.PutFar? && st == Ok then (if Stored(s, c) then s.fars else s.fars[c.key := s.next])
            else if (c.DelFar? && st == Ok) || (c.PutFar? && st == Invalid && !c.paramsOk) then s.fars - {c.key}
            else s.fars)
      && s'.qers ==
           (if c.PutQer? && st == Ok then
              s.qers[c.key := if Stored(s, c) then Qer(s.qers[c.key].ref, s.qers[c.key].hasRate || c.hasMbr)
                              else Qer(s.next, c.hasMbr)]
            else if c.DelQer? && st == Ok then s.qers - {c.key}
            else s.qers)
  {
    RelatedSize(cfg, s);
    hide Inv, SetFar, ClearRate, DoPutPdr, DoDelPdr;
    if c.PutPdr? { PutPdrKeepsRules(cfg, s, c.key, c.flags, c.attrs); }
    if c.DelPdr? { DelPdrKeepsRules(cfg, s, c.key); }
  }

  lemma PutPdrKeepsRules(cfg: Config, s: Dev, k: Key, flags: Flags, a: PdrAttrs)
    requires Inv(cfg, s)
    ensures
      var s' := DoPutPdr(cfg, s, k, flags, a).0;
      s'.fars == s.fars && s'.qers == s.qers
  {
    RelatedSize(cfg, s);
    hide Inv, HasPoison, FillPdr, Linked, Relink, Renode, Unlink;
  }

  lemma DelPdrKeepsRules(cfg: Config, s: Dev, k: Key)
    requires Inv(cfg, s)
    ensures
      var s' := DoDelPdr(cfg, s, k).0;
      s'.fars == s.fars && s'.qers == s.qers
  {
    RelatedSize(cfg, s);
    hide Inv, HasPoison, Denode, Unlink;
  }
}
