/** The shape of a Kubernetes object name: labels of small letters, digits and inner dashes, joined by dots. */
module ObjectNames {
  import opened Splitting

  predicate LabelChar(c: char) {
    'a' <= c <= 'z' || '0' <= c <= '9'
  }

  /** The pattern, character by character. */
  predicate NameForm(s: string) {
    && s != "" && LabelChar(s[0]) && LabelChar(s[|s| - 1])
    && (forall i :: 0 <= i < |s| ==> LabelChar(s[i]) || s[i] == '-' || s[i] == '.')
    && (forall i :: 0 < i < |s| - 1 && s[i] == '.' ==> LabelChar(s[i - 1]) && LabelChar(s[i + 1]))
  }

  predicate ObjectName(s: string) {
    |s| <= 253 && NameForm(s)
  }

  predicate LabelForm(l: string) {
    && l != "" && LabelChar(l[0]) && LabelChar(l[|l| - 1])
    && forall i :: 0 <= i < |l| ==> LabelChar(l[i]) || l[i] == '-'
  }

  /** A label: it neither starts nor ends with a dash. */
  predicate DnsLabel(l: string) {
    && l != "" && l[0] != '-' && l[|l| - 1] != '-'
    && forall i :: 0 <= i < |l| ==> 'a' <= l[i] <= 'z' || '0' <= l[i] <= '9' || l[i] == '-'
  }

  predicate DnsLabels(labels: seq<string>) {
    labels != [] && forall i :: 0 <= i < |labels| ==> DnsLabel(labels[i])
  }

  /** At most 253 bytes of labels joined by dots. */
  ghost predicate DnsName(s: string) {
    |s| <= 253 && exists labels :: DnsLabels(labels) && s == Join(labels, '.')
  }

  lemma LabelForms(l: string)
    ensures LabelForm(l) <==> DnsLabel(l)
  {
  }

  lemma OneLabel(l: string)
    requires '.' !in l
    ensures NameForm(l) <==> LabelForm(l)
  {
  }

  lemma LabelAndRest(l: string, rest: string)
    requires '.' !in l
    ensures NameForm(l + "." + rest) <==> LabelForm(l) && NameForm(rest)
  {
    if NameForm(l + "." + rest) {
      RestOfName(l, rest);
    }
    if LabelForm(l) && NameForm(rest) {
      NameFromRest(l, rest);
    }
  }

  lemma NameFromRest(l: string, rest: string)
    requires '.' !in l && LabelForm(l) && NameForm(rest)
    ensures NameForm(l + "." + rest)
  {
    var s, n := l + "." + rest, |l|;
    assert forall i :: 0 <= i < n ==> s[i] == l[i];
    assert forall i :: n < i < |s| ==> s[i] == rest[i - n - 1];
    assert s[n] == '.';
  }

  lemma RestOfName(l: string, rest: string)
    requires '.' !in l && NameForm(l + "." + rest)
    ensures LabelForm(l) && NameForm(rest)
  {
    var s, n := l + "." + rest, |l|;
    assert s[n] == '.' && 0 < n < |s| - 1;
    assert s[n - 1] == l[n - 1] && s[n + 1] == rest[0];
    assert forall i :: 0 <= i < n ==> s[i] == l[i];
    forall i | 0 <= i < |rest| ensures LabelChar(rest[i]) || rest[i] == '-' || rest[i] == '.' {
      assert s[n + 1 + i] == rest[i];
    }
    forall i | 0 < i < |rest| - 1 && rest[i] == '.' ensures LabelChar(rest[i - 1]) && LabelChar(rest[i + 1]) {
      assert s[n + 1 + i] == '.' && s[n + i] == rest[i - 1] && s[n + 2 + i] == rest[i + 1];
    }
  }

  lemma {:induction false} JoinedLabels(labels: seq<string>)
    requires labels != [] && Free(labels, '.')
    ensures NameForm(Join(labels, '.')) <==> forall i :: 0 <= i < |labels| ==> LabelForm(labels[i])
  {
    if |labels| == 1 {
      OneLabel(labels[0]);
    } else {
      JoinedLabels(labels[1..]);
      LabelAndRest(labels[0], Join(labels[1..], '.'));
      assert forall i :: 1 <= i < |labels| ==> labels[i] == labels[1..][i - 1];
    }
  }

  lemma {:induction false} LabelsOfName(s: string)
    requires NameForm(s)
    ensures DnsLabels(Split(s, '.')) && Join(Split(s, '.'), '.') == s
  {
    var labels := Split(s, '.');
    JoinOfSplit(s, '.');
    JoinedLabels(labels);
    forall i | 0 <= i < |labels| ensures DnsLabel(labels[i]) {
      LabelForms(labels[i]);
    }
  }

  lemma {:induction false} NameOfLabels(labels: seq<string>)
    requires DnsLabels(labels)
    ensures NameForm(Join(labels, '.'))
  {
    forall i | 0 <= i < |labels| ensures LabelForm(labels[i]) && '.' !in labels[i] {
      LabelForms(labels[i]);
    }
    JoinedLabels(labels);
  }

  /** The pattern accepts exactly the dotted labels. */
  lemma ObjectNameExactly(s: string)
    ensures ObjectName(s) <==> DnsName(s)
  {
    if NameForm(s) {
      LabelsOfName(s);
    }
    if labels :| DnsLabels(labels) && s == Join(labels, '.') {
      NameOfLabels(labels);
    }
  }
}
