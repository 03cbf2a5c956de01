/** The extractor that turns the constraints on a table into one interval per column. */
module RangeExtractor {
  import opened Common
  import opened Schema
  import opened SynthLang
  import opened Ranges

  datatype ColConstraint = ColConstraint(hasMin: bool, hasMax: bool, minVal: real, maxVal: real)

  predicate Records(cc: ColConstraint, b: Bounds) {
    && (cc.hasMin <==> b.lo.Some?) && (cc.hasMin ==> cc.minVal == b.lo.value)
    && (cc.hasMax <==> b.hi.Some?) && (cc.hasMax ==> cc.maxVal == b.hi.value)
  }

  /** The map records the bounds of every column; a column that is not in it has none. */
  ghost predicate RecordsAll(ccs: map<string, ColConstraint>, items: seq<ConstraintItem>) {
    forall name: string :: Records(if name in ccs then ccs[name] else NoConstraint(), BoundsOf(items, name))
  }

  function NoConstraint(): ColConstraint { ColConstraint(false, false, 0.0, 0.0) }

  class RangeExtractor {
    const schema: Schema

    constructor (schema: Schema)
      ensures this.schema == schema
    {
      this.schema := schema;
    }

    method Tighten(cc: ColConstraint, c: ConstraintItem) returns (cc': ColConstraint)
      ensures forall b | Records(cc, b) :: Records(cc', Narrow(b, c))
    {
      cc' := cc;
      if c.op == Between || c.op == GreaterThan || c.op == GreaterEqual {
        if !cc'.hasMin || c.valueMin > cc'.minVal {
          cc' := cc'.(hasMin := true, minVal := c.valueMin);
        }
      }
      if c.op == Between || c.op == LessThan || c.op == LessEqual {
        if !cc'.hasMax || c.valueMax < cc'.maxVal {
          cc' := cc'.(hasMax := true, maxVal := c.valueMax);
        }
      }
    }

    lemma OneMore(ccs: map<string, ColConstraint>, items: seq<ConstraintItem>, i: nat, cc: ColConstraint)
      requires i < |items| && RecordsAll(ccs, items[..i])
      requires Records(cc, Narrow(BoundsOf(items[..i], items[i].column), items[i]))
      ensures RecordsAll(ccs[items[i].column := cc], items[..i + 1])
    {
      hide Records, Narrow;
      assert items[..i + 1][..i] == items[..i];
      var ccs' := ccs[items[i].column := cc];
      forall name: string
        ensures Records(if name in ccs' then ccs'[name] else NoConstraint(), BoundsOf(items[..i + 1], name))
      {
        assert Records(if name in ccs then ccs[name] else NoConstraint(), BoundsOf(items[..i], name));
      }
    }

    lemma NoItems(items: seq<ConstraintItem>)
      ensures RecordsAll(map[], items[..0])
    {
    }

    /** Folds the constraints into one entry per column. */
    method Collect(items: seq<ConstraintItem>) returns (ccs: Option<map<string, ColConstraint>>)
      ensures ccs.Some? <==> AllDefined(schema.columns, items)
      ensures ccs.Some? ==> RecordsAll(ccs.value, items)
    {
      hide RecordsAll, Records;
      var m: map<string, ColConstraint> := map[];
      NoItems(items);
      for i := 0 to |items|
        invariant forall k | 0 <= k < i :: IndexOf(schema.columns, items[k].column) >= 0
        invariant RecordsAll(m, items[..i])
      {
        var c := items[i];
        var column := FindColumn(schema, c.column);
        if column == None {
          return None;
        }
        var before := if c.column in m then m[c.column] else NoConstraint();
        Recorded(m, items[..i], c.column);
        var cc := Tighten(before, c);
        OneMore(m, items, i, cc);
        m := m[c.column := cc];
      }
      assert items[..|items|] == items;
      ccs := Some(m);
    }

    lemma Recorded(ccs: map<string, ColConstraint>, items: seq<ConstraintItem>, name: string)
      requires RecordsAll(ccs, items)
      ensures Records(if name in ccs then ccs[name] else NoConstraint(), BoundsOf(items, name))
    {
    }

    method RangeFor(col: ColumnDef, ccs: map<string, ColConstraint>, ghost items: seq<ConstraintItem>) returns (range: ColumnRange)
      requires RecordsAll(ccs, items)
      ensures range == RangeOf(col, items)
    {
      Recorded(ccs, items, col.name);
      hide RecordsAll, BoundsOf;
      range := ColumnRange(col.name, col.dataType, 0.0, 0.0, col.enumValues);
      if col.dataType == Float || col.dataType == Int {
        range := range.(minValue := Or(col.rangeMin, LOWEST), maxValue := Or(col.rangeMax, HIGHEST));
        if col.name in ccs {
          var cc := ccs[col.name];
          if cc.hasMin && cc.minVal > range.minValue {
            range := range.(minValue := cc.minVal);
          }
          if cc.hasMax && cc.maxVal < range.maxValue {
            range := range.(maxValue := cc.maxVal);
          }
        }
      } else if col.dataType == Datetime {
        range := range.(maxValue := YEAR);
      }
    }

    method Extract(items: seq<ConstraintItem>) returns (r: ExtractResult)
      ensures r == Ranges.Extract(schema.columns, items)
    {
      hide RecordsAll, RangeOf;
      var ccs := Collect(items);
      if ccs == None {
        return ExtractFailed(UndefinedColumn);
      }
      var ranges: seq<ColumnRange> := [];
      for i := 0 to |schema.columns|
        invariant |ranges| == i && forall k | 0 <= k < i :: ranges[k] == RangeOf(schema.columns[k], items)
        invariant forall k | 0 <= k < i && Numeric(schema.columns[k]) ::
                    RangeOf(schema.columns[k], items).minValue < RangeOf(schema.columns[k], items).maxValue
      {
        var range := RangeFor(schema.columns[i], ccs.value, items);
        if Numeric(schema.columns[i]) && range.minValue >= range.maxValue {
          return ExtractFailed(SchemaError.InvalidRange);
        }
        ranges := ranges + [range];
      }
      r := Extracted(ranges);
    }
  }
}
