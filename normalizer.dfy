/**
 * The identifier normaliser: `normalize_phone_number`
 * (ios_backup_message_archiver.py lines 248-272), which turns a phone number
 * into the key the contacts map is indexed by.
 */
module Normalizer {
  import opened Text

  const NoBreakSpace: char := '\U{00A0}'

  /** The six characters removed by the chained `replace` calls of lines 267-269. */
  const Separators: set<char> := {'(', ')', '-', '.', ' ', NoBreakSpace}

  /** Lines 267-269: six `replace(c, '')` calls in a row remove the whole separator set. */
  function RemoveSeparators(s: string): (r: string)
    ensures r == Drop(s, Separators)
  {
    var p := Drop(Drop(s, {'('}), {')'});
    var p := Drop(Drop(p, {'-'}), {'.'});
    var p := Drop(Drop(p, {' '}), {NoBreakSpace});
    ghost var brackets, marks, spaces := {'(', ')'}, {'-', '.'}, {' ', NoBreakSpace};
    assert {'('} + {')'} == brackets;
    assert {'-'} + {'.'} == marks;
    assert {' '} + {NoBreakSpace} == spaces;
    assert brackets + marks + spaces == Separators;
    DropDrop(s, {'('}, {')'});
    DropDrop(Drop(s, brackets), {'-'}, {'.'});
    DropDrop(s, brackets, marks);
    DropDrop(Drop(s, brackets + marks), {' '}, {NoBreakSpace});
    DropDrop(s, brackets + marks, spaces);
    p
  }

  /** The digits that survive stripping every leading '+' and then every separator. */
  function Digits(phone: string): string {
    Drop(LStrip(phone, {'+'}), Separators)
  }

  /**
   * `normalize_phone_number`: every leading '+' is stripped, then every separator is
   * removed, and a remainder of exactly ten characters gets the country code '1'
   * in front; any other remainder is returned as it is (no digit check is made).
   */
  function NormalizePhoneNumber(phone: string): (r: string)
    ensures NoneIn(r, Separators)
    ensures |Digits(phone)| == 10 ==> r == "1" + Digits(phone)
    ensures |Digits(phone)| != 10 ==> r == Digits(phone)
    ensures |r| != 10
  {
    var p := if StartsWith(phone, "+") then LStrip(phone, {'+'}) else phone;
    var p := RemoveSeparators(p);
    DropRemoves(LStrip(phone, {'+'}), Separators);
    if |p| == 10 then "1" + p else p
  }

  /**
   * Normalising a normal form again changes nothing, as long as it does not start
   * with '+' (a '+' hidden behind a separator, as in "(+1", surfaces only after
   * the separators are gone).
   */
  lemma NormalizeIdempotent(phone: string)
    requires !StartsWith(NormalizePhoneNumber(phone), "+")
    ensures NormalizePhoneNumber(NormalizePhoneNumber(phone)) == NormalizePhoneNumber(phone)
  {
    var r := NormalizePhoneNumber(phone);
    assert LStrip(r, {'+'}) == r;
    DropAbsent(r, Separators);
  }

  /** Removing separators across a run of them that sits before separator-free text. */
  lemma DropSeparatorRun(x: string, run: string, y: string)
    requires AllIn(run, Separators)
    requires NoneIn(y, Separators)
    ensures Drop(x + run + y, Separators) == Drop(x, Separators) + y
  {
    var dx, dy := Drop(x, Separators), Drop(y, Separators);
    assert Drop(x + run + y, Separators) == Drop(x + run, Separators) + dy by {
      DropAppend(x + run, y, Separators);
    }
    assert Drop(x + run, Separators) == dx by {
      DropAppend(x, run, Separators);
      DropOnly(run, Separators);
      assert dx + [] == dx;
    }
    assert dy == y by {
      DropAbsent(y, Separators);
    }
  }

  /** A '+' behind a separator survives: only the separators in front of it go. */
  lemma {:induction false} DigitsBehindSeparator(run: string, rest: string)
    requires AllIn(run, Separators) && run != []
    requires NoneIn(rest, Separators)
    ensures Digits(run + rest) == rest
  {
    assert (run + rest)[0] == run[0];
    assert '+' !in Separators;
    DropSeparatorRun([], run, rest);
    assert [] + run + rest == run + rest;
  }

  /**
   * Idempotence needs its precondition: a '+' hidden behind a separator, as in
   * "(+1", survives the first pass ("(+1" gives "+1") and is stripped by the
   * second ("+1" gives "1"), so normalising twice differs from normalising once.
   */
  lemma {:induction false} NormalizeNotIdempotentBehindSeparator(run: string, digits: string)
    requires AllIn(run, Separators) && run != []
    requires NoneIn(digits, Separators) && !StartsWith(digits, "+")
    requires |digits| != 9 && |digits| != 10
    ensures NormalizePhoneNumber(run + "+" + digits) == "+" + digits
    ensures NormalizePhoneNumber("+" + digits) == digits
    ensures NormalizePhoneNumber(NormalizePhoneNumber(run + "+" + digits)) != NormalizePhoneNumber(run + "+" + digits)
  {
    assert run + "+" + digits == run + ("+" + digits);
    assert NoneIn("+" + digits, Separators) by {
      assert '+' !in Separators;
      assert forall i :: 1 <= i < |"+" + digits| ==> ("+" + digits)[i] == digits[i - 1];
    }
    DigitsBehindSeparator(run, "+" + digits);
    LStripSkips("+", digits, {'+'});
    assert LStrip(digits, {'+'}) == digits;
    DropAbsent(digits, Separators);
  }

  /**
   * The digits of a formatted international number `+cc (area) exchange-line`:
   * the '+' and the separators go, the digit groups stay in order.
   */
  lemma {:induction false} FormattedDigits(cc: string, area: string, exchange: string, line: string)
    requires cc != [] && cc[0] != '+'
    requires NoneIn(cc, Separators) && NoneIn(area, Separators)
    requires NoneIn(exchange, Separators) && NoneIn(line, Separators)
    ensures Digits("+" + cc + " (" + area + ") " + exchange + "-" + line) == cc + area + exchange + line
  {
    var rest := cc + " (" + area + ") " + exchange + "-" + line;
    assert "+" + cc + " (" + area + ") " + exchange + "-" + line == "+" + rest;
    LStripSkips("+", rest, {'+'});
    assert rest[0] == cc[0];
    DropSeparatorRun(cc + " (" + area + ") " + exchange, "-", line);
    DropSeparatorRun(cc + " (" + area, ") ", exchange);
    DropSeparatorRun(cc, " (", area);
    DropAbsent(cc, Separators);
  }

  /** A number without '+' or separators is its own digit string. */
  lemma BareDigits(bare: string)
    requires NoneIn(bare, Separators) && !StartsWith(bare, "+")
    ensures Digits(bare) == bare
  {
    assert LStrip(bare, {'+'}) == bare;
    DropAbsent(bare, Separators);
  }

  /** The digits of `+1 (area) exchange-line`. */
  lemma UsFormattedDigits(area: string, exchange: string, line: string)
    requires NoneIn(area, Separators) && NoneIn(exchange, Separators) && NoneIn(line, Separators)
    ensures Digits("+1 (" + area + ") " + exchange + "-" + line) == "1" + (area + exchange + line)
  {
    assert "+1 (" + area + ") " + exchange + "-" + line == "+" + "1" + " (" + area + ") " + exchange + "-" + line;
    assert NoneIn("1", Separators);
    FormattedDigits("1", area, exchange, line);
    assert "1" + area + exchange + line == "1" + (area + exchange + line);
  }

  /** The digits of the same groups written without separators. */
  lemma BareGroupDigits(area: string, exchange: string, line: string)
    requires NoneIn(area, Separators) && NoneIn(exchange, Separators) && NoneIn(line, Separators)
    requires !StartsWith(area + exchange + line, "+")
    ensures Digits(area + exchange + line) == area + exchange + line
  {
    NoneInAppend(area, exchange, Separators);
    NoneInAppend(area + exchange, line, Separators);
    BareDigits(area + exchange + line);
  }

  /**
   * A US number written `+1 (area) exchange-line` and the same ten digits
   * written bare get one key, the digits with the country code '1' in front
   * (so "+1 (222) 333-4444" and "2223334444" both give "12223334444").
   */
  lemma FormattedMeetsBare(area: string, exchange: string, line: string)
    requires NoneIn(area, Separators) && NoneIn(exchange, Separators) && NoneIn(line, Separators)
    requires |area + exchange + line| == 10 && !StartsWith(area + exchange + line, "+")
    ensures NormalizePhoneNumber("+1 (" + area + ") " + exchange + "-" + line) == "1" + area + exchange + line
    ensures NormalizePhoneNumber(area + exchange + line) == "1" + area + exchange + line
  {
    UsFormattedDigits(area, exchange, line);
    BareGroupDigits(area, exchange, line);
    assert "1" + (area + exchange + line) == "1" + area + exchange + line;
  }

  /**
   * Every leading '+' goes, not just one: any run of '+' in front of a number
   * normalises exactly as the number does ("++44 20" gives "4420").
   */
  lemma {:induction false} NormalizeStripsEveryPlus(plus: string, phone: string)
    requires AllIn(plus, {'+'})
    requires !StartsWith(phone, "+")
    ensures NormalizePhoneNumber(plus + phone) == NormalizePhoneNumber(phone)
  {
    LStripSkips(plus, phone, {'+'});
    assert LStrip(phone, {'+'}) == phone;
  }
}
