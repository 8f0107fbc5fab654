/** The validator package: an error map filled by checks where the first error recorded for
    a key wins, plus the membership, uniqueness and character-class helpers built on it. */
module Validator {
  import opened Errors

  /** One check as the Validate* functions write it: a condition, the field key and the
      message recorded when the condition fails. */
  datatype Rule = Rule(ok: bool, key: string, message: string)

  /** The error map after one check: a failed check records its message only when the key
      has no message yet. */
  function Checked(errors: map<string, string>, r: Rule): (e: map<string, string>)
    ensures e.Keys == if r.ok then errors.Keys else errors.Keys + {r.key}
    ensures forall k :: k in errors ==> e[k] == errors[k]
  {
    if r.ok || r.key in errors then errors else errors[r.key := r.message]
  }

  /** The error map after a sequence of checks run in order. */
  function ApplyRules(errors: map<string, string>, rules: seq<Rule>): map<string, string>
    decreases |rules|
  {
    if rules == [] then errors
    else Checked(ApplyRules(errors, rules[..|rules| - 1]), rules[|rules| - 1])
  }

  /** Running one more check after a sequence of checks. */
  lemma ApplyRulesSnoc(errors: map<string, string>, rules: seq<Rule>, r: Rule)
    ensures ApplyRules(errors, rules + [r]) == Checked(ApplyRules(errors, rules), r)
  {
    assert (rules + [r])[..|rules|] == rules;
  }

  /** The error map after the first k + 1 checks, from the map after the first k. */
  lemma ApplyRulesPrefix(errors: map<string, string>, rules: seq<Rule>, k: nat)
    requires k < |rules|
    ensures ApplyRules(errors, rules[..k + 1]) == Checked(ApplyRules(errors, rules[..k]), rules[k])
  {
    assert rules[..k + 1][..k] == rules[..k];
  }

  /** Running two sequences of checks one after the other. */
  lemma {:induction false} ApplyRulesAppend(errors: map<string, string>, first: seq<Rule>, second: seq<Rule>)
    ensures ApplyRules(errors, first + second) == ApplyRules(ApplyRules(errors, first), second)
    decreases |second|
  {
    if second == [] {
      assert first + second == first;
    } else {
      var init, last := second[..|second| - 1], second[|second| - 1];
      assert second == init + [last];
      assert first + second == (first + init) + [last];
      ApplyRulesAppend(errors, first, init);
      ApplyRulesSnoc(errors, first + init, last);
      ApplyRulesSnoc(ApplyRules(errors, first), init, last);
    }
  }

  /** Does some check in `rules` fail for `key`? */
  predicate FailsFor(rules: seq<Rule>, key: string) {
    exists i :: 0 <= i < |rules| && !rules[i].ok && rules[i].key == key
  }

  /** The message of the first failing check for `key`. */
  function FirstMessage(rules: seq<Rule>, key: string): string
    requires FailsFor(rules, key)
    decreases |rules|
  {
    if !rules[0].ok && rules[0].key == key then rules[0].message
    else
      assert FailsFor(rules[1..], key) by {
        var i :| 0 <= i < |rules| && !rules[i].ok && rules[i].key == key;
        assert i != 0;
        assert !rules[1..][i - 1].ok && rules[1..][i - 1].key == key;
      }
      FirstMessage(rules[1..], key)
  }

  lemma {:induction false} FirstMessageSnoc(rules: seq<Rule>, r: Rule, key: string)
    requires FailsFor(rules, key)
    ensures FailsFor(rules + [r], key)
    ensures FirstMessage(rules + [r], key) == FirstMessage(rules, key)
    decreases |rules|
  {
    var i :| 0 <= i < |rules| && !rules[i].ok && rules[i].key == key;
    assert (rules + [r])[i] == rules[i];
    if !rules[0].ok && rules[0].key == key {
    } else {
      assert i != 0;
      assert !rules[1..][i - 1].ok && rules[1..][i - 1].key == key;
      assert (rules + [r])[1..] == rules[1..] + [r];
      FirstMessageSnoc(rules[1..], r, key);
    }
  }

  lemma {:induction false} FirstMessageLast(rules: seq<Rule>, r: Rule)
    requires !FailsFor(rules, r.key) && !r.ok
    ensures FailsFor(rules + [r], r.key)
    ensures FirstMessage(rules + [r], r.key) == r.message
    decreases |rules|
  {
    assert (rules + [r])[|rules|] == r;
    if rules != [] {
      assert rules[0] == (rules + [r])[0];
      assert (rules + [r])[1..] == rules[1..] + [r];
      forall i | 0 <= i < |rules[1..]|
        ensures rules[1..][i].ok || rules[1..][i].key != r.key
      {
        assert rules[1..][i] == rules[i + 1];
      }
      FirstMessageLast(rules[1..], r);
    }
  }

  /** A check fails for a key after one more check iff it failed before or the new check
      fails for it. */
  lemma FailsForSnoc(rules: seq<Rule>, r: Rule, key: string)
    ensures FailsFor(rules + [r], key) <==> FailsFor(rules, key) || (!r.ok && r.key == key)
  {
    var all := rules + [r];
    if FailsFor(all, key) {
      var i :| 0 <= i < |all| && !all[i].ok && all[i].key == key;
      if i < |rules| { assert rules[i] == all[i]; }
    }
    if FailsFor(rules, key) {
      var i :| 0 <= i < |rules| && !rules[i].ok && rules[i].key == key;
      assert all[i] == rules[i];
    }
    if !r.ok && r.key == key {
      assert all[|rules|] == r;
    }
  }

  /** What a run of checks leaves in the map, key by key: an existing message is kept, and
      a key gains the message of its first failing check. */
  lemma {:induction false} ApplyRulesEntry(errors: map<string, string>, rules: seq<Rule>, key: string)
    ensures key in ApplyRules(errors, rules) <==> key in errors || FailsFor(rules, key)
    ensures key in errors ==> ApplyRules(errors, rules)[key] == errors[key]
    ensures key !in errors && FailsFor(rules, key) ==>
              ApplyRules(errors, rules)[key] == FirstMessage(rules, key)
    decreases |rules|
  {
    if rules != [] {
      var init, last := rules[..|rules| - 1], rules[|rules| - 1];
      assert rules == init + [last];
      ApplyRulesEntry(errors, init, key);
      FailsForSnoc(init, last, key);
      if key !in errors && FailsFor(rules, key) {
        if FailsFor(init, key) {
          FirstMessageSnoc(init, last, key);
        } else {
          FirstMessageLast(init, last);
        }
      }
    }
  }

  /** Checks run on an empty map leave it empty exactly when every check passes. */
  lemma ApplyRulesValid(rules: seq<Rule>)
    ensures ApplyRules(map[], rules) == map[] <==> forall i :: 0 <= i < |rules| ==> rules[i].ok
  {
    if exists i :: 0 <= i < |rules| && !rules[i].ok {
      var i :| 0 <= i < |rules| && !rules[i].ok;
      ApplyRulesEntry(map[], rules, rules[i].key);
    } else {
      forall k ensures k !in ApplyRules(map[], rules) {
        ApplyRulesEntry(map[], rules, k);
      }
      assert ApplyRules(map[], rules).Keys == {};
    }
  }

  /** Validator holds the map of validation errors, field key to message. */
  class Validator {
    var errors: map<string, string>

    /** New creates a validator with an empty error map. */
    constructor New()
      ensures errors == map[]
      ensures Valid()
    {
      errors := map[];
    }

    /** Valid is true iff no error has been recorded. */
    predicate Valid()
      reads this
      ensures Valid() <==> errors == map[]
    {
      |errors| == 0
    }

    /** AddError records a message for a key that has none yet; an existing message is
        never overwritten. */
    method AddError(key: string, message: string)
      modifies this
      ensures key in errors
      ensures errors.Keys == old(errors).Keys + {key}
      ensures forall k :: k in old(errors) ==> errors[k] == old(errors)[k]
      ensures key !in old(errors) ==> errors[key] == message
    {
      if key !in errors {
        errors := errors[key := message];
      }
    }

    /** Check records the message when `ok` is false and changes nothing otherwise. */
    method Check(ok: bool, key: string, message: string)
      modifies this
      ensures errors == Checked(old(errors), Rule(ok, key, message))
    {
      if !ok {
        AddError(key, message);
      }
    }

    /** Run the checks in order, each as Check does. */
    method CheckAll(rules: seq<Rule>)
      modifies this
      ensures errors == ApplyRules(old(errors), rules)
    {
      for i := 0 to |rules|
        invariant errors == ApplyRules(old(errors), rules[..i])
      {
        Check(rules[i].ok, rules[i].key, rules[i].message);
        ApplyRulesPrefix(old(errors), rules, i);
      }
      assert rules[..|rules|] == rules;
    }
  }

  /** PermittedValue: is `value` one of `permitted`? A linear scan, as slices.Contains does. */
  function PermittedValue<T(==)>(value: T, permitted: seq<T>): (r: bool)
    ensures r <==> exists i :: 0 <= i < |permitted| && permitted[i] == value
    decreases |permitted|
  {
    if permitted == [] then false
    else if permitted[0] == value then true
    else
      var r' := PermittedValue(value, permitted[1..]);
      assert r' ==> exists i :: 0 <= i < |permitted| && permitted[i] == value by {
        if r' {
          var j :| 0 <= j < |permitted[1..]| && permitted[1..][j] == value;
          assert permitted[j + 1] == value;
        }
      }
      assert (exists i :: 0 <= i < |permitted| && permitted[i] == value) ==> r' by {
        if exists i :: 0 <= i < |permitted| && permitted[i] == value {
          var i :| 0 <= i < |permitted| && permitted[i] == value;
          assert i != 0;
          assert permitted[1..][i - 1] == value;
        }
      }
      r'
  }

  /** Are the elements of `values` pairwise distinct? */
  predicate Distinct<T(==)>(values: seq<T>) {
    forall i, j :: 0 <= i < j < |values| ==> values[i] != values[j]
  }

  /** The number of distinct elements is the length exactly when there are no repeats. */
  lemma {:induction false} DistinctCardinality<T>(values: seq<T>)
    ensures |set x | x in values| <= |values|
    ensures |set x | x in values| == |values| <==> Distinct(values)
    decreases |values|
  {
    if values != [] {
      var rest := values[1..];
      DistinctCardinality(rest);
      var s, s' := set x | x in values, set x | x in rest;
      assert s == s' + {values[0]};
      if values[0] in rest {
        assert s == s';
        var j :| 0 <= j < |rest| && rest[j] == values[0];
        assert values[0] == values[j + 1];
      } else {
        assert |s| == |s'| + 1;
        if Distinct(rest) {
          forall i, j | 0 <= i < j < |values| ensures values[i] != values[j] {
            if i == 0 {
              assert values[j] == rest[j - 1];
            } else {
              assert values[i] == rest[i - 1] && values[j] == rest[j - 1];
            }
          }
        }
        if Distinct(values) {
          forall i, j | 0 <= i < j < |rest| ensures rest[i] != rest[j] {
            assert rest[i] == values[i + 1] && rest[j] == values[j + 1];
          }
        }
      }
    }
  }

  /** Unique: put every value in a set and compare its size with the length. */
  method Unique<T(==)>(values: seq<T>) returns (r: bool)
    ensures r <==> Distinct(values)
  {
    var uniqueValues: set<T> := {};
    for i := 0 to |values|
      invariant uniqueValues == set x | x in values[..i]
    {
      assert values[..i + 1] == values[..i] + [values[i]];
      uniqueValues := uniqueValues + {values[i]};
    }
    assert values[..|values|] == values;
    DistinctCardinality(values);
    r := |uniqueValues| == |values|;
  }

  /** The Unicode category Cc: U+0000..U+001F and U+007F..U+009F. */
  predicate IsControl(c: char) {
    c as int <= 0x1F || (0x7F <= c as int <= 0x9F)
  }

  /** ValidUnicodeChars is false iff some rune is in category Cc or in category Cf; the Cf
      table is the parameter `isFormat`. */
  method ValidUnicodeChars(value: string, isFormat: char -> bool) returns (r: bool)
    ensures r <==> forall i :: 0 <= i < |value| ==> !IsControl(value[i]) && !isFormat(value[i])
  {
    for i := 0 to |value|
      invariant forall j :: 0 <= j < i ==> !IsControl(value[j]) && !isFormat(value[j])
    {
      if IsControl(value[i]) || isFormat(value[i]) {
        return false;
      }
    }
    return true;
  }
}
