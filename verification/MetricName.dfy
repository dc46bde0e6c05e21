/** The external metric name: printed by the controller (reconcile.rs), parsed by the webhook (handlers.rs). */
module MetricName {
  import opened Wrappers

  datatype ApiError = BadRequest | MetricUnavailable

  datatype Parsed = Parsed(epaName: string, namespace: string, metric: string)

  /** `{name}-{namespace}-{metric}`. */
  function ExternalMetricName(name: string, namespace: string, metric: string): string {
    name + "-" + namespace + "-" + metric
  }

  function LastIndexOf(s: string, c: char): (r: Option<nat>)
    ensures r == None ==> c !in s
    ensures r.Some? ==> r.value < |s| && s[r.value] == c && forall j | r.value < j < |s| :: s[j] != c
  {
    if s == [] then None
    else
      var last := |s| - 1;
      if s[last] == c then Some(last)
      else
        assert s == s[..last] + [s[last]];
        LastIndexOf(s[..last], c)
  }

  predicate EndsWith(s: string, suffix: string) {
    |suffix| <= |s| && s[|s| - |suffix|..] == suffix
  }

  /** parse_external_metric_name. */
  function ParseExternalMetricName(urlNamespace: string, metricName: string): Result<Parsed, ApiError> {
    var hyphen := LastIndexOf(metricName, '-');
    if hyphen == None then Failure(BadRequest)
    else
      var prefix := metricName[..hyphen.value];
      var metric := metricName[hyphen.value + 1..];
      var suffix := "-" + urlNamespace;
      if !EndsWith(prefix, suffix) then Failure(BadRequest)
      else
        var epaName := prefix[..|prefix| - |suffix|];
        if epaName == "" || metric == "" then Failure(BadRequest)
        else Success(Parsed(epaName, urlNamespace, metric))
  }

  lemma LastIndexIs(s: string, c: char, i: nat)
    requires i < |s| && s[i] == c && forall j | i < j < |s| :: s[j] != c
    ensures LastIndexOf(s, c) == Some(i)
  {
    assert s[i] in s;
  }

  /** Whatever parses prints back to its input, with the namespace it was parsed for. */
  lemma ParsedPrintsBack(urlNamespace: string, metricName: string)
    requires ParseExternalMetricName(urlNamespace, metricName).Success?
    ensures var p := ParseExternalMetricName(urlNamespace, metricName).value;
      && ExternalMetricName(p.epaName, p.namespace, p.metric) == metricName
      && p.namespace == urlNamespace && p.epaName != "" && p.metric != "" && '-' !in p.metric
  {
    var hyphen := LastIndexOf(metricName, '-').value;
    var prefix, suffix := metricName[..hyphen], "-" + urlNamespace;
    assert metricName == prefix + "-" + metricName[hyphen + 1..];
    assert prefix == prefix[..|prefix| - |suffix|] + suffix;
  }

  /** A printed name parses to its parts exactly when the EPA name is not empty and the metric name is
      neither empty nor hyphenated. */
  lemma PrintedParsesBackIff(name: string, namespace: string, metric: string)
    ensures ParseExternalMetricName(namespace, ExternalMetricName(name, namespace, metric))
              == Success(Parsed(name, namespace, metric))
      <==> name != "" && metric != "" && '-' !in metric
  {
    var printed := ExternalMetricName(name, namespace, metric);
    var prefix := name + "-" + namespace;
    if name != "" && metric != "" && '-' !in metric {
      assert printed[|prefix| + 1..] == metric;
      forall j | |prefix| < j < |printed| ensures printed[j] != '-' {
        assert printed[j] == metric[j - |prefix| - 1];
      }
      LastIndexIs(printed, '-', |prefix|);
      assert printed[..|prefix|] == prefix;
      assert prefix[|name|..] == "-" + namespace;
      assert prefix[..|name|] == name;
    } else if ParseExternalMetricName(namespace, printed) == Success(Parsed(name, namespace, metric)) {
      ParsedPrintsBack(namespace, printed);
    }
  }

  /** Distinct EPAs or metrics of a namespace never share an external metric name. */
  lemma NamesNeverCollide(namespace: string, name: string, metric: string, otherName: string, otherMetric: string)
    requires name != "" && metric != "" && '-' !in metric
    requires otherName != "" && otherMetric != "" && '-' !in otherMetric
    requires ExternalMetricName(name, namespace, metric) == ExternalMetricName(otherName, namespace, otherMetric)
    ensures name == otherName && metric == otherMetric
  {
    PrintedParsesBackIff(name, namespace, metric);
    PrintedParsesBackIff(otherName, namespace, otherMetric);
  }
}
