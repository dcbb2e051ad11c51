/**
 Licence expressions (SPDX Specification 2.3, Annex D): when does every way of complying with an expression
 involve a strong copyleft licence?
 */
module LicensePolicy {

  datatype Expression =
    | License(id: string)
    | Or(left: Expression, right: Expression)
    | And(left: Expression, right: Expression)

  function Upper(c: char): char { if 'a' <= c <= 'z' then (c as int - 32) as char else c }

  predicate WordCharacter(c: char) { 'a' <= c <= 'z' || 'A' <= c <= 'Z' || '0' <= c <= '9' || c == '_' }

  /** `prefix` stands at `i`, whatever the case of letters. */
  predicate StandsAt(s: string, i: nat, prefix: string) {
    i + |prefix| <= |s| && forall k | 0 <= k < |prefix| :: Upper(s[i + k]) == prefix[k]
  }

  /** An AGPL- or GPL- family name that begins at a word boundary, so LGPL- does not count. */
  predicate StrongCopyleft(id: string) {
    exists i | 0 <= i < |id| ::
      (i == 0 || !WordCharacter(id[i - 1])) && (StandsAt(id, i, "AGPL-") || StandsAt(id, i, "GPL-"))
  }

  function RequiresStrongCopyleft(e: Expression): bool {
    match e
    case License(id) => StrongCopyleft(id)
    case Or(left, right) => RequiresStrongCopyleft(left) && RequiresStrongCopyleft(right)
    case And(left, right) => RequiresStrongCopyleft(left) || RequiresStrongCopyleft(right)
  }

  /** The licence sets one may comply with: a side of each OR, both sides of each AND. */
  function Choices(e: Expression): set<set<string>> {
    match e
    case License(id) => {{id}}
    case Or(left, right) => Choices(left) + Choices(right)
    case And(left, right) => set a, b | a in Choices(left) && b in Choices(right) :: a + b
  }

  predicate Strong(licenses: set<string>) { exists l | l in licenses :: StrongCopyleft(l) }

  /** Some way of complying avoids strong copyleft, given that the expression does not require it. */
  lemma {:induction false} WeakChoice(e: Expression) returns (choice: set<string>)
    requires !RequiresStrongCopyleft(e)
    ensures choice in Choices(e) && !Strong(choice)
  {
    match e
    case License(id) => choice := {id};
    case Or(left, right) =>
      if RequiresStrongCopyleft(left) { choice := WeakChoice(right); } else { choice := WeakChoice(left); }
    case And(left, right) =>
      var a := WeakChoice(left);
      var b := WeakChoice(right);
      choice := a + b;
  }

  lemma {:induction false} StrongChoices(e: Expression, choice: set<string>)
    requires RequiresStrongCopyleft(e) && choice in Choices(e)
    ensures Strong(choice)
  {
    match e
    case License(id) => assert id in choice;
    case Or(left, right) =>
      if choice in Choices(left) { StrongChoices(left, choice); } else { StrongChoices(right, choice); }
    case And(left, right) =>
      var a, b :| a in Choices(left) && b in Choices(right) && choice == a + b;
      if RequiresStrongCopyleft(left) { StrongChoices(left, a); } else { StrongChoices(right, b); }
  }

  /** The evaluation is exact: it holds if and only if every choice contains a strong copyleft licence. */
  lemma EvaluationIsExact(e: Expression)
    ensures RequiresStrongCopyleft(e) <==> forall choice | choice in Choices(e) :: Strong(choice)
  {
    if RequiresStrongCopyleft(e) {
      forall choice | choice in Choices(e) ensures Strong(choice) { StrongChoices(e, choice); }
    } else {
      var choice := WeakChoice(e);
    }
  }
}
