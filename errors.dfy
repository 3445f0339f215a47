/**
 * The exceptions the interpreter throws while running a block program, one
 * constructor per message. `interpret` turns the first of them into the final
 * trace line `Error: <message>`.
 */
module Errors {
  import opened Int32s
  import opened Text
  import opened ExprParser

  datatype Error =
    | ExpressionError(cause: ParseError)
    | InvalidCondition
    | UnknownOperator(op: string)
    | MissingCondition
    | MissingVariableNames
    | EmptyVariableName
    | VariableExists(name: string)
    | MissingVariableName
    | MissingExpression
    | UndeclaredVariable(name: string)
    | MissingArrayName
    | InvalidArraySize
    | ArrayExists(name: string)
    | NonPositiveArraySize
    | InvalidArrayIndex
    | MissingOperation
    | ArrayNotFound(name: string)
    | IndexOutOfBounds(index: Int32)
    | MissingValue
    | UnknownOperation(operation: string)

  /** The exception's message. */
  function ErrorMessage(e: Error): string {
    match e
    case ExpressionError(cause) => Message(cause)
    case InvalidCondition => "Invalid condition"
    case UnknownOperator(op) => "Unknown operator '" + op + "'"
    case MissingCondition => "Missing condition"
    case MissingVariableNames => "Missing variable names"
    case EmptyVariableName => "Empty variable name"
    case VariableExists(name) => "Variable '" + name + "' already exists"
    case MissingVariableName => "Missing variable name"
    case MissingExpression => "Missing expression"
    case UndeclaredVariable(name) => "Unknown variable '" + name + "'"
    case MissingArrayName => "Missing array name"
    case InvalidArraySize => "Invalid array size"
    case ArrayExists(name) => "Array '" + name + "' already exists"
    case NonPositiveArraySize => "Array size must be positive"
    case InvalidArrayIndex => "Invalid array index"
    case MissingOperation => "Missing operation"
    case ArrayNotFound(name) => "Array '" + name + "' not found"
    case IndexOutOfBounds(index) => "Index " + IntToString(index) + " out of bounds"
    case MissingValue => "Missing value"
    case UnknownOperation(operation) => "Unknown operation '" + operation + "'"
  }
}
