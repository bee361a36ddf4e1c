/** The operations of a migration: kind, object key, dependencies and destructiveness. */
module Operations {
  import opened Catalog

  datatype ObjectKind =
    | KTable | KColumn | KIndex | KConstraint | KType | KView | KSchema | KSequence | KExtension

  datatype ObjectKey = ObjectKey(schema: string, name: string, kind: ObjectKind)

  datatype Kind =
    | AddTable | DropTable | AddColumn | DropColumn | AlterColumnType | SetNotNull | DropNotNull
    | AddIndex | DropIndex | AddConstraint | DropConstraint | AddEnumType | DropEnumType
    | AddEnumLabel | SetDefault | DropDefault | AlterColumnCollation | CreateSchema | DropSchema
    | SetIdentity | DropIdentity | AddIdentity | RenameColumn | CreateView | DropView
    | ReplaceView | CreateMaterializedView | DropMaterializedView | CreateSequence
    | DropSequence | AlterSequence | CreateExtension | DropExtension | AlterExtensionUpdate

  datatype Stage = PreDeploy | Deploy | PostDeploy

  datatype Op =
    | AddTableOp(schema: string, name: string, tableDef: TableDef)
    | DropTableOp(schema: string, name: string)
    | AddColumnOp(schema: string, table: string, col: Column)
    | DropColumnOp(schema: string, table: string, column: string)
    | AlterColumnTypeOp(schema: string, table: string, column: string,
                        fromType: string, toType: string)
    | SetNotNullOp(schema: string, table: string, column: string)
    | DropNotNullOp(schema: string, table: string, column: string)
    | SetDefaultOp(schema: string, table: string, column: string, defaultExpr: string)
    | DropDefaultOp(schema: string, table: string, column: string)
    | AlterColumnCollationOp(schema: string, table: string, column: string,
                             dataType: string, fromCollation: string, toCollation: string)
    | AddIdentityOp(schema: string, table: string, column: string, identityKind: string)
    | SetIdentityOp(schema: string, table: string, column: string, identityKind: string)
    | DropIdentityOp(schema: string, table: string, column: string)
    | RenameColumnOp(schema: string, table: string, oldName: string, newName: string)
    | CreateIndexOp(schema: string, index: Index)
    | DropIndexOp(schema: string, name: string)
    | AddConstraintOp(schema: string, table: string, constraint: Constraint)
    | DropConstraintOp(schema: string, table: string, name: string)
    | AddEnumTypeOp(schema: string, name: string, enumType: EnumType)
    | DropEnumTypeOp(schema: string, name: string)
    | AddEnumLabelOp(schema: string, name: string, enumLabel: string)
    | CreateViewOp(schema: string, view: View)
    | DropViewOp(schema: string, name: string, isRecreate: bool)
    | ReplaceViewOp(schema: string, view: View)
    | CreateMaterializedViewOp(schema: string, view: View)
    | DropMaterializedViewOp(schema: string, name: string)
    | CreateSequenceOp(schema: string, sequence: Sequence)
    | DropSequenceOp(schema: string, name: string)
    | AlterSequenceOp(schema: string, before: Sequence, after: Sequence)
    | CreateExtensionOp(schema: string, extension: Extension)
    | DropExtensionOp(schema: string, name: string)
    | AlterExtensionUpdateOp(schema: string, extension: Extension)
    | CreateSchemaOp(schema: string)
    | DropSchemaOp(schema: string)
  {
    function Kind(): Kind {
      match this
      case AddTableOp(_, _, _) => AddTable
      case DropTableOp(_, _) => DropTable
      case AddColumnOp(_, _, _) => AddColumn
      case DropColumnOp(_, _, _) => DropColumn
      case AlterColumnTypeOp(_, _, _, _, _) => AlterColumnType
      case SetNotNullOp(_, _, _) => SetNotNull
      case DropNotNullOp(_, _, _) => DropNotNull
      case SetDefaultOp(_, _, _, _) => SetDefault
      case DropDefaultOp(_, _, _) => DropDefault
      case AlterColumnCollationOp(_, _, _, _, _, _) => AlterColumnCollation
      case AddIdentityOp(_, _, _, _) => AddIdentity
      case SetIdentityOp(_, _, _, _) => SetIdentity
      case DropIdentityOp(_, _, _) => DropIdentity
      case RenameColumnOp(_, _, _, _) => RenameColumn
      case CreateIndexOp(_, _) => AddIndex
      case DropIndexOp(_, _) => DropIndex
      case AddConstraintOp(_, _, _) => AddConstraint
      case DropConstraintOp(_, _, _) => DropConstraint
      case AddEnumTypeOp(_, _, _) => AddEnumType
      case DropEnumTypeOp(_, _) => DropEnumType
      case AddEnumLabelOp(_, _, _) => AddEnumLabel
      case CreateViewOp(_, _) => CreateView
      case DropViewOp(_, _, _) => DropView
      case ReplaceViewOp(_, _) => ReplaceView
      case CreateMaterializedViewOp(_, _) => CreateMaterializedView
      case DropMaterializedViewOp(_, _) => DropMaterializedView
      case CreateSequenceOp(_, _) => CreateSequence
      case DropSequenceOp(_, _) => DropSequence
      case AlterSequenceOp(_, _, _) => AlterSequence
      case CreateExtensionOp(_, _) => CreateExtension
      case DropExtensionOp(_, _) => DropExtension
      case AlterExtensionUpdateOp(_, _) => AlterExtensionUpdate
      case CreateSchemaOp(_) => CreateSchema
      case DropSchemaOp(_) => DropSchema
    }

    function Key(): ObjectKey {
      match this
      case AddTableOp(s, n, _) => ObjectKey(s, n, KTable)
      case DropTableOp(s, n) => ObjectKey(s, n, KTable)
      case AddColumnOp(s, t, c) => ObjectKey(s, t + "." + c.name, KColumn)
      case DropColumnOp(s, t, c) => ObjectKey(s, t + "." + c, KColumn)
      case AlterColumnTypeOp(s, t, c, _, _) => ObjectKey(s, t + "." + c, KColumn)
      case SetNotNullOp(s, t, c) => ObjectKey(s, t + "." + c, KColumn)
      case DropNotNullOp(s, t, c) => ObjectKey(s, t + "." + c, KColumn)
      case SetDefaultOp(s, t, c, _) => ObjectKey(s, t + "." + c, KColumn)
      case DropDefaultOp(s, t, c) => ObjectKey(s, t + "." + c, KColumn)
      case AlterColumnCollationOp(s, t, c, _, _, _) => ObjectKey(s, t + "." + c, KColumn)
      case AddIdentityOp(s, t, c, _) => ObjectKey(s, t + "." + c, KColumn)
      case SetIdentityOp(s, t, c, _) => ObjectKey(s, t + "." + c, KColumn)
      case DropIdentityOp(s, t, c) => ObjectKey(s, t + "." + c, KColumn)
      case RenameColumnOp(s, t, oldName, _) => ObjectKey(s, t + "." + oldName, KColumn)
      case CreateIndexOp(s, i) => ObjectKey(s, i.name, KIndex)
      case DropIndexOp(s, n) => ObjectKey(s, n, KIndex)
      case AddConstraintOp(s, t, c) => ObjectKey(s, t + "." + c.name, KConstraint)
      case DropConstraintOp(s, t, n) => ObjectKey(s, t + "." + n, KConstraint)
      case AddEnumTypeOp(s, n, _) => ObjectKey(s, n, KType)
      case DropEnumTypeOp(s, n) => ObjectKey(s, n, KType)
      case AddEnumLabelOp(s, n, l) => ObjectKey(s, n + "." + l, KType)
      case CreateViewOp(s, v) => ObjectKey(s, v.name, KView)
      case DropViewOp(s, n, _) => ObjectKey(s, n, KView)
      case ReplaceViewOp(s, v) => ObjectKey(s, v.name, KView)
      case CreateMaterializedViewOp(s, v) => ObjectKey(s, v.name, KView)
      case DropMaterializedViewOp(s, n) => ObjectKey(s, n, KView)
      case CreateSequenceOp(s, q) => ObjectKey(s, q.name, KSequence)
      case DropSequenceOp(s, n) => ObjectKey(s, n, KSequence)
      case AlterSequenceOp(s, _, after) => ObjectKey(s, after.name, KSequence)
      case CreateExtensionOp(s, e) => ObjectKey(s, e.name, KExtension)
      case DropExtensionOp(s, n) => ObjectKey(s, n, KExtension)
      case AlterExtensionUpdateOp(s, e) => ObjectKey(s, e.name, KExtension)
      case CreateSchemaOp(s) => ObjectKey(s, "", KSchema)
      case DropSchemaOp(s) => ObjectKey(s, "", KSchema)
    }

    /** The operation works on one column of an existing table. */
    predicate IsColumnOp() {
      AddColumnOp? || DropColumnOp? || AlterColumnTypeOp? || SetNotNullOp? || DropNotNullOp? ||
      SetDefaultOp? || DropDefaultOp? || AlterColumnCollationOp? || AddIdentityOp? ||
      SetIdentityOp? || DropIdentityOp? || RenameColumnOp?
    }

    /** The keys the operation depends on.  An ADD TABLE reads them off its constraint map, in
        no particular order and with repetitions; only the set matters. */
    function DependsOn(): set<ObjectKey> {
      if AddTableOp? then
        set n | n in tableDef.constraints && IsForeignKey(tableDef.constraints[n]) ::
          ReferencedTable(tableDef.constraints[n])
      else if IsColumnOp() then {ObjectKey(schema, table, KTable)}
      else if CreateIndexOp? then {ObjectKey(schema, index.table, KTable)}
      else if AddConstraintOp? then
        {ObjectKey(schema, table, KTable), ObjectKey(schema, table + "." + constraint.name, KConstraint)}
      else if AddEnumLabelOp? then {ObjectKey(schema, name, KType)}
      else {}
    }

    predicate IsDestructive() {
      DropTableOp? || DropColumnOp? || AlterColumnTypeOp? || DropIdentityOp? || DropIndexOp? ||
      DropConstraintOp? || DropEnumTypeOp? || (DropViewOp? && !isRecreate) ||
      DropMaterializedViewOp? || DropSequenceOp? || DropExtensionOp? || DropSchemaOp?
    }
  }

  predicate IsForeignKey(c: Constraint) {
    c.kind == "foreign_key" && c.refTable != ""
  }

  function ReferencedTable(c: Constraint): ObjectKey {
    ObjectKey(c.refSchema, c.refTable, KTable)
  }

  /** The stage of each kind of operation. */
  function AssignStage(kind: Kind): Stage {
    match kind
    case AddTable | AddColumn | SetDefault | AddEnumType | AddEnumLabel | AddIndex
       | AddConstraint | CreateView | CreateMaterializedView | CreateSchema | CreateSequence
       | CreateExtension | AlterExtensionUpdate => PreDeploy
    case AlterColumnType | SetNotNull | DropNotNull | DropDefault | RenameColumn | AddIdentity
       | SetIdentity | DropIdentity | AlterColumnCollation | AlterSequence => Deploy
    case DropTable | DropColumn | DropIndex | DropConstraint | DropEnumType | DropView
       | DropMaterializedView | DropSchema | DropSequence | DropExtension | ReplaceView =>
      PostDeploy
  }

  function StageOf(op: Op): Stage {
    AssignStage(op.Kind())
  }
}
